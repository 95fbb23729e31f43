/** `create_database.py`: its own winner check (rows, then columns, then the
    diagonals), its own minimax, and the depth-first enumeration that records
    every board reached from the start, keyed by `board_to_string`.  The
    dictionary the source mutates is threaded through as a value: each call
    returns the dictionary it leaves behind, and the place-and-undo on the
    shared board is a value update `b[i := mark]`, so the board a caller holds
    is never changed. */
module CreateDatabase {
  import opened Outcomes
  import opened Grid
  import opened BoardKey
  import BaseAgent
  import MinimaxAgent

  /** `check_winner`: the mark of the first complete line in rows-first
      order, or `None`. */
  function DbWinner(b: Board): Option<Cell>
  {
    match FirstComplete(b, RowsFirstOrder, 0)
    case Some(k) => Some(LineMark(b, RowsFirstOrder[k]))
    case None => None
  }

  /** The database scan and the agents' scan report a winner on the same
      boards, and the same one, although they visit the lines in different
      orders. */
  lemma DbWinnerAgreesWithCheckWinner(b: Board)
    ensures DbWinner(b).Some? <==> BaseAgent.CheckWinner(b).Winner?
    ensures DbWinner(b).Some? ==> DbWinner(b).value == BaseAgent.CheckWinner(b).mark
    ensures DbWinner(b).None? && IsFull(b) <==> BaseAgent.CheckWinner(b) == BaseAgent.Draw
  {
    ScanOrdersAgreeOnMark(b);
  }

  /** `minimax(board, depth, is_maximizing, player, database)`: the winner is
      tested before fullness; `player` wins 100 - depth, the opponent
      -100 + depth, a full board 0, and an open board takes the best child
      (`database` is passed along untouched, so it is not a parameter). */
  function DbMinimax(b: Board, depth: int, maximizing: bool, player: Cell): int
    requires IsMark(player)
    decreases CountEmpty(b), 10
  {
    var w := DbWinner(b);
    if w == Some(player) then 100 - depth
    else if w == Some(OtherMark(player)) then -100 + depth
    else if IsFull(b) then 0
    else
      match DbBestChild(b, depth, maximizing, player, 0)
      case Some(s) => s
      case None => 0
  }

  /** One ply over the free cells at index `k` or later; `None` is the
      starting infinity. */
  function DbBestChild(b: Board, depth: int, maximizing: bool, player: Cell, k: nat): Option<int>
    requires IsMark(player) && k <= 9
    decreases CountEmpty(b), 9 - k
  {
    if k == 9 then None
    else
      var rest := DbBestChild(b, depth, maximizing, player, k + 1);
      if b[k] != Empty then rest
      else
        var mover := if maximizing then player else OtherMark(player);
        FillingDecrements(b, k, mover);
        var s := DbMinimax(b[k := mover], depth + 1, !maximizing, player);
        match rest
        case None => Some(s)
        case Some(v) => Some(if maximizing then MinimaxAgent.Max(s, v) else MinimaxAgent.Min(s, v))
  }

  /** The database's minimax and the agent's minimax compute the same score
      on every board, so the table and the live search agree. */
  lemma {:induction false} DbMinimaxIsMinimax(b: Board, depth: int, maximizing: bool, player: Cell)
    requires IsMark(player)
    ensures DbMinimax(b, depth, maximizing, player) == MinimaxAgent.Minimax(b, depth, maximizing, player)
    decreases CountEmpty(b), 10
  {
    DbWinnerAgreesWithCheckWinner(b);
    if DbWinner(b).None? && !IsFull(b) {
      DbBestChildIsBestChild(b, depth, maximizing, player, 0);
    }
  }

  lemma {:induction false} DbBestChildIsBestChild(b: Board, depth: int, maximizing: bool, player: Cell, k: nat)
    requires IsMark(player) && k <= 9
    ensures DbBestChild(b, depth, maximizing, player, k) == MinimaxAgent.BestChild(b, depth, maximizing, player, k)
    decreases CountEmpty(b), 9 - k
  {
    if k < 9 {
      DbBestChildIsBestChild(b, depth, maximizing, player, k + 1);
      if b[k] == Empty {
        var mover := if maximizing then player else OtherMark(player);
        FillingDecrements(b, k, mover);
        DbMinimaxIsMinimax(b[k := mover], depth + 1, !maximizing, player);
      }
    }
  }

  /** The scores `create_database` computes for the nine cells:
      `minimax(board + player at i, 0, False)` (occupied cells are never
      consulted). */
  function DbScores(b: Board, player: Cell): (r: seq<int>)
    requires IsMark(player)
    ensures |r| == 9
  {
    seq(9, i requires 0 <= i < 9 => DbMinimax(b[i := player], 0, false, player))
  }

  /** The loop of lines 101-111 over the first `n` cells: the index of the
      first free cell whose score is strictly greater than every earlier
      free cell's, or -1 when there is no free cell. */
  function FirstBest(b: Board, score: seq<int>, n: nat): (r: int)
    requires |score| == 9 && n <= 9
    ensures r == -1 <==> forall i :: 0 <= i < n ==> b[i] != Empty
    ensures r != -1 ==> 0 <= r < n && b[r] == Empty
    ensures r != -1 ==> forall i :: 0 <= i < n && b[i] == Empty ==> score[i] <= score[r]
    ensures r != -1 ==> forall i :: 0 <= i < r && b[i] == Empty ==> score[i] < score[r]
  {
    if n == 0 then -1
    else
      var r := FirstBest(b, score, n - 1);
      if b[n - 1] == Empty && (r == -1 || score[n - 1] > score[r]) then n - 1 else r
  }

  /** `best_move` of a non-terminal board. */
  function BestMove(b: Board, player: Cell): int
    requires IsMark(player)
  {
    FirstBest(b, DbScores(b, player), 9)
  }

  /** The `result` field: a winner's mark, "draw", or "continue". */
  datatype Outcome = Won(mark: Cell) | Drawn | Continue

  /** One value of the dictionary: `{"best_move": m, "result": r}`. */
  datatype Entry = Entry(bestMove: int, result: Outcome)

  type Database = map<string, Entry>

  /** How the search picks `best_move` for an open board.  `create_database`
      uses `BestMoveOf`; the search is written over any chooser so that its
      structural properties do not depend on the (expensive) minimax. */
  type Chooser = (Board, Cell) -> int

  /** `BestMove` made total: only a mark is ever to move in the search. */
  function BestMoveOf(b: Board, player: Cell): int
  {
    if IsMark(player) then BestMove(b, player) else -1
  }

  /** A chooser that, like `BestMove`, names a free cell of every board that
      is not full. */
  ghost predicate Legal(choose: Chooser)
  {
    forall b: Board, p: Cell :: IsMark(p) && !IsFull(b) ==> 0 <= choose(b, p) < 9 && b[choose(b, p)] == Empty
  }

  lemma BestMoveIsLegal()
    ensures Legal(BestMoveOf)
  {
    forall b: Board, p: Cell | IsMark(p) && !IsFull(b)
      ensures 0 <= BestMoveOf(b, p) < 9 && b[BestMoveOf(b, p)] == Empty
    {
      var m := FirstBest(b, DbScores(b, p), 9);
    }
  }

  /** `create_database(board, player, database)`, the move of an open board
      chosen by `choose`: a key already present stops the search; a won or
      full board is recorded with `best_move` -1 and not expanded; any other
      board is recorded with its chosen move and "continue", and then every
      free cell is tried in row-major order with the other player to move. */
  function CreateWith(choose: Chooser, b: Board, player: Cell, db: Database): Database
    requires IsMark(player)
    decreases CountEmpty(b), 10
  {
    var key := Key(b);
    if key in db then db
    else
      match DbWinner(b)
      case Some(w) => db[key := Entry(-1, Won(w))]
      case None =>
        if IsFull(b) then db[key := Entry(-1, Drawn)]
        else ExpandWith(choose, b, player, db[key := Entry(choose(b, player), Continue)], 0)
  }

  /** The loop of lines 116-121 from cell `k` on: each free cell is marked
      for `player` and the search recurses with the opponent to move. */
  function ExpandWith(choose: Chooser, b: Board, player: Cell, db: Database, k: nat): Database
    requires IsMark(player) && k <= 9
    decreases CountEmpty(b), 9 - k
  {
    if k == 9 then db
    else if b[k] != Empty then ExpandWith(choose, b, player, db, k + 1)
    else
      FillingDecrements(b, k, player);
      ExpandWith(choose, b, player, CreateWith(choose, b[k := player], OtherMark(player), db), k + 1)
  }

  /** `create_database` itself. */
  function Create(b: Board, player: Cell, db: Database): Database
    requires IsMark(player)
  {
    CreateWith(BestMoveOf, b, player, db)
  }

  lemma CreateOpenUnfold(choose: Chooser, b: Board, player: Cell, db: Database)
    requires IsMark(player) && Key(b) !in db && DbWinner(b).None? && !IsFull(b)
    ensures CreateWith(choose, b, player, db) == ExpandWith(choose, b, player, db[Key(b) := Entry(choose(b, player), Continue)], 0)
  {}

  /** An entry, once written, is never rewritten or removed. */
  predicate Extends(db: Database, r: Database)
  {
    forall key :: key in db ==> key in r && r[key] == db[key]
  }

  lemma ExtendsTransitive(a: Database, b: Database, c: Database)
    requires Extends(a, b) && Extends(b, c)
    ensures Extends(a, c)
  {}

  /** The search only adds entries, and the board it starts from always ends
      up recorded. */
  lemma {:induction false} CreateExtends(choose: Chooser, b: Board, player: Cell, db: Database)
    requires IsMark(player)
    ensures Extends(db, CreateWith(choose, b, player, db))
    ensures Key(b) in CreateWith(choose, b, player, db)
    decreases CountEmpty(b), 10
  {
    var key := Key(b);
    if key !in db && DbWinner(b).None? && !IsFull(b) {
      var db1 := db[key := Entry(choose(b, player), Continue)];
      CreateOpenUnfold(choose, b, player, db);
      ExpandExtends(choose, b, player, db1, 0);
    }
  }

  lemma {:induction false} ExpandExtends(choose: Chooser, b: Board, player: Cell, db: Database, k: nat)
    requires IsMark(player) && k <= 9
    ensures Extends(db, ExpandWith(choose, b, player, db, k))
    decreases CountEmpty(b), 9 - k
  {
    if k < 9 {
      if b[k] != Empty {
        ExpandExtends(choose, b, player, db, k + 1);
      } else {
        FillingDecrements(b, k, player);
        var db1 := CreateWith(choose, b[k := player], OtherMark(player), db);
        CreateExtends(choose, b[k := player], OtherMark(player), db);
        ExpandExtends(choose, b, player, db1, k + 1);
        ExtendsTransitive(db, db1, ExpandWith(choose, b, player, db1, k + 1));
      }
    }
  }

  /** The entry `create_database` leaves for its own board: an existing
      key stops the search with nothing changed; a won board is recorded as
      `{"best_move": -1, "result": winner}` and a full one as
      `{"best_move": -1, "result": "draw"}`, neither expanded; any other board
      keeps `{"best_move": BestMove, "result": "continue"}` whatever the
      expansion adds later. */
  lemma CreateEntry(b: Board, player: Cell, db: Database)
    requires IsMark(player)
    ensures Key(b) in Create(b, player, db)
    ensures Key(b) in db ==> Create(b, player, db) == db
    ensures Key(b) !in db && DbWinner(b).Some? ==>
      Create(b, player, db) == db[Key(b) := Entry(-1, Won(DbWinner(b).value))]
    ensures Key(b) !in db && DbWinner(b).None? && IsFull(b) ==>
      Create(b, player, db) == db[Key(b) := Entry(-1, Drawn)]
    ensures Key(b) !in db && DbWinner(b).None? && !IsFull(b) ==>
      Create(b, player, db)[Key(b)] == Entry(BestMove(b, player), Continue)
  {
    if Key(b) !in db && DbWinner(b).None? && !IsFull(b) {
      var db1 := db[Key(b) := Entry(BestMoveOf(b, player), Continue)];
      CreateOpenUnfold(BestMoveOf, b, player, db);
      ExpandExtends(BestMoveOf, b, player, db1, 0);
    }
  }

  /** Playing `moves` from `b` with `player` to move, the way the search
      descends: each move must be a free cell of a board that is neither won
      nor full, and the players alternate. */
  function Play(b: Board, player: Cell, moves: seq<int>): (r: Option<Board>)
    decreases |moves|
  {
    if |moves| == 0 then Some(b)
    else
      var k := moves[0];
      if 0 <= k < 9 && b[k] == Empty && DbWinner(b).None? then
        Play(b[k := player], OtherMark(player), moves[1..])
      else None
  }

  /** `c` is reached from `b` by the search's alternating placements. */
  ghost predicate Reaches(b: Board, player: Cell, c: Board)
  {
    exists moves: seq<int> {:trigger Play(b, player, moves)} :: Play(b, player, moves) == Some(c)
  }

  /** `key` is the key of a board reached from `b`. */
  ghost predicate KeyReached(b: Board, player: Cell, key: string)
  {
    exists c: Board {:trigger Reaches(b, player, c)} :: Reaches(b, player, c) && Key(c) == key
  }

  lemma StartReached(b: Board, player: Cell)
    ensures KeyReached(b, player, Key(b))
  {
    assert Play(b, player, []) == Some(b);
    assert Reaches(b, player, b);
  }

  lemma ReachesStep(b: Board, player: Cell, k: int, c: Board)
    requires 0 <= k < 9 && b[k] == Empty && DbWinner(b).None?
    requires Reaches(b[k := player], OtherMark(player), c)
    ensures Reaches(b, player, c)
  {
    var moves :| Play(b[k := player], OtherMark(player), moves) == Some(c);
    assert ([k] + moves)[1..] == moves;
    assert Play(b, player, [k] + moves) == Some(c);
  }

  /** Every key the search adds is the key of its starting board or of a
      board reached from it by alternating placements starting with
      `player`. */
  lemma {:induction false} CreateSound(choose: Chooser, b: Board, player: Cell, db: Database)
    requires IsMark(player)
    ensures forall key :: key in CreateWith(choose, b, player, db) ==> key in db || KeyReached(b, player, key)
    decreases CountEmpty(b), 11
  {
    StartReached(b, player);
    CreateClosedAddsAtMostKey(choose, b, player, db);
    CreateOpenSound(choose, b, player, db);
  }

  lemma {:induction false} CreateOpenSound(choose: Chooser, b: Board, player: Cell, db: Database)
    requires IsMark(player)
    ensures Key(b) !in db && DbWinner(b).None? && !IsFull(b) ==>
      forall key :: key in CreateWith(choose, b, player, db) ==> key in db || KeyReached(b, player, key)
    decreases CountEmpty(b), 10
  {
    if Key(b) in db || DbWinner(b).Some? || IsFull(b) {
      return;
    }
    var db1 := db[Key(b) := Entry(choose(b, player), Continue)];
    CreateOpenUnfold(choose, b, player, db);
    ExpandSound(choose, b, player, db1, 0);
    StartReached(b, player);
    assert forall key :: key in db1 ==> key in db || key == Key(b);
  }

  /** Without expansion the search adds at most the board's own key. */
  lemma CreateClosedAddsAtMostKey(choose: Chooser, b: Board, player: Cell, db: Database)
    requires IsMark(player)
    ensures Key(b) in db || DbWinner(b).Some? || IsFull(b) ==>
      forall key :: key in CreateWith(choose, b, player, db) ==> key in db || key == Key(b)
  {
    if Key(b) !in db {
      if DbWinner(b).Some? {
        assert CreateWith(choose, b, player, db) == db[Key(b) := Entry(-1, Won(DbWinner(b).value))];
      } else if IsFull(b) {
        assert CreateWith(choose, b, player, db) == db[Key(b) := Entry(-1, Drawn)];
      }
    }
  }

  lemma {:induction false} ExpandSound(choose: Chooser, b: Board, player: Cell, db: Database, k: nat)
    requires IsMark(player) && k <= 9 && DbWinner(b).None?
    ensures forall key :: key in ExpandWith(choose, b, player, db, k) ==> key in db || KeyReached(b, player, key)
    decreases CountEmpty(b), 9 - k
  {
    if k < 9 {
      if b[k] != Empty {
        ExpandSound(choose, b, player, db, k + 1);
      } else {
        FillingDecrements(b, k, player);
        var child := b[k := player];
        var db1 := CreateWith(choose, child, OtherMark(player), db);
        CreateSound(choose, child, OtherMark(player), db);
        ExpandSound(choose, b, player, db1, k + 1);
        forall key | key in db1 && key !in db
          ensures KeyReached(b, player, key)
        {
          var c: Board :| Reaches(child, OtherMark(player), c) && Key(c) == key;
          ReachesStep(b, player, k, c);
        }
      }
    }
  }

  /** What a lookup agent may rely on for one entry: a terminal entry (-1)
      carries the board's result, and a "continue" entry names a free cell of
      a board nobody has won. */
  predicate EntryFits(c: Board, e: Entry)
  {
    match e.result
    case Won(w) => e.bestMove == -1 && DbWinner(c) == Some(w)
    case Drawn => e.bestMove == -1 && DbWinner(c).None? && IsFull(c)
    case Continue => DbWinner(c).None? && 0 <= e.bestMove < 9 && c[e.bestMove] == Empty
  }

  /** `key` is the key of a board that `e` fits. */
  predicate KeyFits(key: string, e: Entry)
  {
    StringToBoard(key).Some? && EntryFits(StringToBoard(key).value, e)
  }

  /** Every key is the key of a board, and its entry fits that board. */
  ghost predicate WellFormed(db: Database)
  {
    forall key :: key in db ==> KeyFits(key, db[key])
  }

  /** An entry that fits its board fits the board's key. */
  lemma FitsAtKey(c: Board, e: Entry)
    requires EntryFits(c, e)
    ensures KeyFits(Key(c), e)
  {
    KeyRoundTrip(c);
  }

  lemma AddFitting(db: Database, key: string, e: Entry)
    requires WellFormed(db) && KeyFits(key, e)
    ensures WellFormed(db[key := e])
  {}

  /** The search keeps every entry consistent with its board: starting from
      a well-formed dictionary (the empty one, say) it ends with one. */
  lemma {:induction false} CreateWellFormed(choose: Chooser, b: Board, player: Cell, db: Database)
    requires IsMark(player) && Legal(choose) && WellFormed(db)
    ensures WellFormed(CreateWith(choose, b, player, db))
    decreases CountEmpty(b), 10
  {
    var key := Key(b);
    if key !in db {
      match DbWinner(b)
      case Some(w) =>
        FitsAtKey(b, Entry(-1, Won(w)));
        AddFitting(db, key, Entry(-1, Won(w)));
      case None =>
        if IsFull(b) {
          FitsAtKey(b, Entry(-1, Drawn));
          AddFitting(db, key, Entry(-1, Drawn));
        } else {
          var e := Entry(choose(b, player), Continue);
          FitsAtKey(b, e);
          AddFitting(db, key, e);
          CreateOpenUnfold(choose, b, player, db);
          ExpandWellFormed(choose, b, player, db[key := e], 0);
        }
    }
  }

  lemma {:induction false} ExpandWellFormed(choose: Chooser, b: Board, player: Cell, db: Database, k: nat)
    requires IsMark(player) && k <= 9 && Legal(choose) && WellFormed(db)
    ensures WellFormed(ExpandWith(choose, b, player, db, k))
    decreases CountEmpty(b), 9 - k
  {
    if k < 9 {
      if b[k] != Empty {
        ExpandWellFormed(choose, b, player, db, k + 1);
      } else {
        FillingDecrements(b, k, player);
        CreateWellFormed(choose, b[k := player], OtherMark(player), db);
        ExpandWellFormed(choose, b, player, CreateWith(choose, b[k := player], OtherMark(player), db), k + 1);
      }
    }
  }

  /** The mark to move on a board that the search reaches from `start` with
      `p` to move: the players alternate and each move fills one cell, so
      the parity of the free cells says whose turn it is. */
  function Mover(start: Board, p: Cell, c: Board): (r: Cell)
    ensures IsMark(p) ==> IsMark(r)
    ensures c == start ==> r == p
  {
    if CountEmpty(c) % 2 == CountEmpty(start) % 2 then p else OtherMark(p)
  }

  lemma MoverAlternates(start: Board, p: Cell, b: Board, k: int)
    requires IsMark(p) && 0 <= k < 9 && b[k] == Empty
    ensures Mover(start, p, b[k := Mover(start, p, b)]) == OtherMark(Mover(start, p, b))
  {
    FillingDecrements(b, k, Mover(start, p, b));
  }

  /** Each move of a play fills one free cell. */
  lemma {:induction false} PlayCounts(b: Board, p: Cell, moves: seq<int>, c: Board)
    requires IsMark(p) && Play(b, p, moves) == Some(c)
    ensures CountEmpty(c) + |moves| == CountEmpty(b)
    decreases |moves|
  {
    if |moves| > 0 {
      var k := moves[0];
      FillingDecrements(b, k, p);
      PlayCounts(b[k := p], OtherMark(p), moves[1..], c);
    }
  }

  /** A board reached from `b` other than `b` itself is reached through a
      child of `b`, which therefore has no winner. */
  lemma ReachedThroughChild(b: Board, p: Cell, c: Board) returns (k: int)
    requires Reaches(b, p, c) && c != b
    ensures DbWinner(b).None? && 0 <= k < 9 && b[k] == Empty
    ensures Reaches(b[k := p], OtherMark(p), c)
  {
    var moves :| Play(b, p, moves) == Some(c);
    k := moves[0];
    assert Play(b[k := p], OtherMark(p), moves[1..]) == Some(c);
  }

  /** A board reached from `b` has fewer free cells than `b` unless it is
      `b`. */
  lemma ReachedHasFewerFree(b: Board, p: Cell, c: Board)
    requires IsMark(p) && Reaches(b, p, c)
    ensures c == b || CountEmpty(c) < CountEmpty(b)
  {
    var moves :| Play(b, p, moves) == Some(c);
    PlayCounts(b, p, moves, c);
  }

  /** Every board reached from `c` with `p` to move is recorded in `db`. */
  ghost predicate Covered(db: Database, c: Board, p: Cell)
  {
    forall key :: KeyReached(c, p, key) ==> key in db
  }

  lemma CoveredGrows(db: Database, r: Database, c: Board, p: Cell)
    requires Covered(db, c, p) && Extends(db, r)
    ensures Covered(r, c, p)
  {}

  /** A recorded board is covered when, if nobody has won it, each of its
      children is covered with the other player to move. */
  lemma CoveredFromChildren(db: Database, b: Board, p: Cell)
    requires Key(b) in db
    requires DbWinner(b).None? ==>
      forall k :: 0 <= k < 9 && b[k] == Empty ==> Covered(db, b[k := p], OtherMark(p))
    ensures Covered(db, b, p)
  {
    forall key | KeyReached(b, p, key)
      ensures key in db
    {
      var c :| Reaches(b, p, c) && Key(c) == key;
      if c != b {
        var k := ReachedThroughChild(b, p, c);
        assert KeyReached(b[k := p], OtherMark(p), key);
      }
    }
  }

  /** Every recorded board with fewer than `n` free cells has everything
      below it recorded.  During the search the boards whose expansion is
      still under way are the ancestors of the current board, and they all
      have more free cells than it. */
  ghost predicate SettledBelow(db: Database, n: nat, start: Board, p: Cell)
  {
    forall c: Board :: Key(c) in db && CountEmpty(c) < n ==> Covered(db, c, Mover(start, p, c))
  }

  /** Recording a board whose subtree is then covered keeps the recorded
      boards below the bound settled. */
  lemma SettledAfterRecording(db: Database, r: Database, b: Board, n: nat, start: Board, p: Cell)
    requires SettledBelow(db, n, start, p) && Extends(db, r)
    requires forall key :: key in r ==> key in db || key == Key(b)
    requires CountEmpty(b) < n ==> Covered(r, b, Mover(start, p, b))
    ensures SettledBelow(r, n, start, p)
  {
    forall c: Board | Key(c) in r && CountEmpty(c) < n
      ensures Covered(r, c, Mover(start, p, c))
    {
      if Key(c) in db {
        CoveredGrows(db, r, c, Mover(start, p, c));
      } else {
        KeyInjective(c, b);
      }
    }
  }

  /** The keys the expansion of an open board adds are of boards with fewer
      free cells. */
  lemma ExpandAddsBelow(choose: Chooser, b: Board, player: Cell, db: Database, c: Board)
    requires IsMark(player) && DbWinner(b).None? && Key(b) in db
    ensures Key(c) in ExpandWith(choose, b, player, db, 0) && Key(c) !in db ==> CountEmpty(c) < CountEmpty(b)
  {
    if Key(c) in ExpandWith(choose, b, player, db, 0) && Key(c) !in db {
      ExpandSound(choose, b, player, db, 0);
      var d :| Reaches(b, player, d) && Key(d) == Key(c);
      KeyInjective(c, d);
      ReachedHasFewerFree(b, player, c);
    }
  }

  /** Completeness of the search: with the recorded boards below the
      current one settled, the search records everything reachable from its
      board and leaves the boards below the bound settled. */
  lemma {:induction false} CreateComplete(choose: Chooser, b: Board, player: Cell, db: Database, start: Board, p0: Cell)
    requires IsMark(player) && IsMark(p0) && player == Mover(start, p0, b)
    requires SettledBelow(db, CountEmpty(b) + 1, start, p0)
    ensures Covered(CreateWith(choose, b, player, db), b, player)
    ensures SettledBelow(CreateWith(choose, b, player, db), CountEmpty(b) + 1, start, p0)
    decreases CountEmpty(b), 10
  {
    var key := Key(b);
    var r := CreateWith(choose, b, player, db);
    if key in db {
      assert Covered(db, b, Mover(start, p0, b));
    } else if DbWinner(b).Some? || IsFull(b) {
      CoveredFromChildren(r, b, player);
      SettledAfterRecording(db, r, b, CountEmpty(b) + 1, start, p0);
    } else {
      var db1 := db[key := Entry(choose(b, player), Continue)];
      CreateOpenUnfold(choose, b, player, db);
      SettledAfterRecording(db, db1, b, CountEmpty(b), start, p0);
      ExpandComplete(choose, b, player, db1, 0, start, p0);
      ExpandExtends(choose, b, player, db1, 0);
      CoveredFromChildren(r, b, player);
      forall c: Board | Key(c) in r && CountEmpty(c) < CountEmpty(b) + 1
        ensures Covered(r, c, Mover(start, p0, c))
      {
        if Key(c) in db {
          CoveredGrows(db, r, c, Mover(start, p0, c));
        } else if CountEmpty(c) == CountEmpty(b) {
          ExpandAddsBelow(choose, b, player, db1, c);
          KeyInjective(c, b);
        }
      }
    }
  }

  lemma {:induction false} ExpandComplete(choose: Chooser, b: Board, player: Cell, db: Database, k: nat, start: Board, p0: Cell)
    requires IsMark(player) && IsMark(p0) && player == Mover(start, p0, b)
    requires k <= 9 && DbWinner(b).None?
    requires SettledBelow(db, CountEmpty(b), start, p0)
    requires forall j :: 0 <= j < k && b[j] == Empty ==> Covered(db, b[j := player], OtherMark(player))
    ensures SettledBelow(ExpandWith(choose, b, player, db, k), CountEmpty(b), start, p0)
    ensures forall j :: 0 <= j < 9 && b[j] == Empty ==>
      Covered(ExpandWith(choose, b, player, db, k), b[j := player], OtherMark(player))
    decreases CountEmpty(b), 9 - k
  {
    if k < 9 {
      if b[k] != Empty {
        ExpandComplete(choose, b, player, db, k + 1, start, p0);
      } else {
        FillingDecrements(b, k, player);
        MoverAlternates(start, p0, b, k);
        var child := b[k := player];
        var db1 := CreateWith(choose, child, OtherMark(player), db);
        CreateComplete(choose, child, OtherMark(player), db, start, p0);
        CreateExtends(choose, child, OtherMark(player), db);
        forall j | 0 <= j < k && b[j] == Empty
          ensures Covered(db1, b[j := player], OtherMark(player))
        {
          CoveredGrows(db, db1, b[j := player], OtherMark(player));
        }
        ExpandComplete(choose, b, player, db1, k + 1, start, p0);
      }
    }
  }

  /** Every "continue" entry holds the move `choose` names for its board,
      with the mover fixed by `Mover`. */
  ghost predicate RecordsChoice(choose: Chooser, db: Database, start: Board, p: Cell)
  {
    forall c: Board :: Key(c) in db && db[Key(c)].result.Continue? ==>
      db[Key(c)].bestMove == choose(c, Mover(start, p, c))
  }

  lemma RecordingKeepsChoice(choose: Chooser, db: Database, b: Board, e: Entry, start: Board, p: Cell)
    requires RecordsChoice(choose, db, start, p)
    requires e.result.Continue? ==> e.bestMove == choose(b, Mover(start, p, b))
    ensures RecordsChoice(choose, db[Key(b) := e], start, p)
  {
    forall c: Board | Key(c) == Key(b)
      ensures c == b
    {
      KeyInjective(c, b);
    }
  }

  /** The search records, for every open board, the move `choose` names for
      the player whose turn it is there. */
  lemma {:induction false} CreateRecordsChoice(choose: Chooser, b: Board, player: Cell, db: Database, start: Board, p0: Cell)
    requires IsMark(player) && IsMark(p0) && player == Mover(start, p0, b)
    requires RecordsChoice(choose, db, start, p0)
    ensures RecordsChoice(choose, CreateWith(choose, b, player, db), start, p0)
    decreases CountEmpty(b), 10
  {
    var key := Key(b);
    if key !in db {
      match DbWinner(b)
      case Some(w) =>
        RecordingKeepsChoice(choose, db, b, Entry(-1, Won(w)), start, p0);
      case None =>
        if IsFull(b) {
          RecordingKeepsChoice(choose, db, b, Entry(-1, Drawn), start, p0);
        } else {
          var e := Entry(choose(b, player), Continue);
          RecordingKeepsChoice(choose, db, b, e, start, p0);
          CreateOpenUnfold(choose, b, player, db);
          ExpandRecordsChoice(choose, b, player, db[key := e], 0, start, p0);
        }
    }
  }

  lemma {:induction false} ExpandRecordsChoice(choose: Chooser, b: Board, player: Cell, db: Database, k: nat, start: Board, p0: Cell)
    requires IsMark(player) && IsMark(p0) && player == Mover(start, p0, b) && k <= 9
    requires RecordsChoice(choose, db, start, p0)
    ensures RecordsChoice(choose, ExpandWith(choose, b, player, db, k), start, p0)
    decreases CountEmpty(b), 9 - k
  {
    if k < 9 {
      if b[k] != Empty {
        ExpandRecordsChoice(choose, b, player, db, k + 1, start, p0);
      } else {
        FillingDecrements(b, k, player);
        MoverAlternates(start, p0, b, k);
        CreateRecordsChoice(choose, b[k := player], OtherMark(player), db, start, p0);
        ExpandRecordsChoice(choose, b, player, CreateWith(choose, b[k := player], OtherMark(player), db), k + 1, start, p0);
      }
    }
  }

  /** What `main` gets from `create_database(empty_board, "X", {})`, stated
      for any starting board and player: a well-formed table that records the
      start, exactly the boards the search's play from the start reaches,
      and for each open board the best move of the player whose turn it is
      there. */
  lemma FreshTable(b: Board, player: Cell)
    requires IsMark(player)
    ensures WellFormed(Create(b, player, map[]))
    ensures Key(b) in Create(b, player, map[])
    ensures forall key :: key in Create(b, player, map[]) <==> KeyReached(b, player, key)
    ensures forall c: Board :: Key(c) in Create(b, player, map[]) && Create(b, player, map[])[Key(c)].result.Continue? ==>
      Create(b, player, map[])[Key(c)].bestMove == BestMove(c, Mover(b, player, c))
  {
    BestMoveIsLegal();
    CreateWellFormed(BestMoveOf, b, player, map[]);
    CreateExtends(BestMoveOf, b, player, map[]);
    CreateSound(BestMoveOf, b, player, map[]);
    CreateComplete(BestMoveOf, b, player, map[], b, player);
    CreateRecordsChoice(BestMoveOf, b, player, map[], b, player);
  }
}
