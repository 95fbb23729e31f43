/** `GameAdapter` of `ble_server/game_adapter.py`: the text protocol between
    the micro:bit client and the game.  The board travels as nine characters
    'X', 'O' and '.', the result as "WIN", "LOSE" or "DRAW" with the winning
    cells appended as ":a,b,c", and commands as the strings "RESET",
    "START_P1", "START_P2" and "MOVE:N".

    The game manager (`server/game_manager.py`) is not part of this model:
    its two calls are the functions of a `Manager` value, and the game object
    it hands back is the `TicTacToe` of `game_logic.py` (`PyGame.Game`). */
module GameAdapter {
  import opened Outcomes
  import opened Grid
  import opened BoardKey
  import opened PyText
  import BaseAgent
  import PyGame

  /** How `make_player_move` ends, with the game the manager holds
      afterwards.  That game is the very object the adapter keeps (the one
      `start_new_game` returned), so whatever the manager changed before
      raising, an agent's move after the human's say, stays visible. */
  datatype MoveAnswer = Returned(game: PyGame.Game) | Raised(game: PyGame.Game)

  /** What the adapter asks of the game manager: `start_new_game(x type,
      o type, human symbol)` and `make_player_move(row, col)` on the game
      the two share. */
  datatype Manager = Manager(
    startNewGame: (string, string, Cell) -> PyGame.Game,
    makePlayerMove: (PyGame.Game, int, int) -> MoveAnswer)

  /** The adapter's own state: the current game, if any, and the agent type
      the micro:bit's opponent uses. */
  datatype Adapter = Adapter(instance: Option<PyGame.Game>, defaultAi: string)

  /** `GameAdapter()`: no game yet and the "Random" opponent. */
  const Initial: Adapter := Adapter(None, "Random")

  /** What `handle_command` returns, `(board_string, result_status)`, and
      the adapter afterwards. */
  datatype Reply = Reply(board: string, result: string, next: Adapter)

  /** One cell of the protocol board. */
  function WireChar(c: Cell): char
  {
    match c
    case X => 'X'
    case O => 'O'
    case Empty => '.'
  }

  /** The board of a game, row-major. */
  function WireBoard(b: Board): (r: string)
    ensures |r| == 9
  {
    seq(9, i requires 0 <= i < 9 => WireChar(b[i]))
  }

  /** `get_board_string()`: nine dots without a game. */
  function BoardString(a: Adapter): (r: string)
    ensures |r| == 9
    ensures a.instance.None? ==> forall i :: 0 <= i < 9 ==> r[i] == '.'
    ensures a.instance.Some? ==> forall i :: 0 <= i < 9 ==>
      && (r[i] == 'X' <==> a.instance.value.board[i] == X)
      && (r[i] == 'O' <==> a.instance.value.board[i] == O)
      && (r[i] == '.' <==> a.instance.value.board[i] == Empty)
  {
    match a.instance
    case None => "........."
    case Some(g) => WireBoard(g.board)
  }

  /** The cell a protocol character stands for. */
  function WireCellOf(ch: char): Option<Cell>
  {
    if ch == 'X' then Some(X) else if ch == 'O' then Some(O) else if ch == '.' then Some(Empty) else None
  }

  /** Reading a protocol board back, as the micro:bit does. */
  function ReadWireBoard(s: string): Option<Board>
  {
    if |s| == 9 && forall i :: 0 <= i < 9 ==> WireCellOf(s[i]).Some? then
      Some(seq(9, i requires 0 <= i < 9 => WireCellOf(s[i]).value))
    else None
  }

  /** The protocol board determines the game's board. */
  lemma WireBoardRoundTrip(b: Board)
    ensures ReadWireBoard(WireBoard(b)) == Some(b)
  {
    var s := WireBoard(b);
    assert forall i :: 0 <= i < 9 ==> WireCellOf(s[i]) == Some(b[i]);
    assert ReadWireBoard(s).value == b;
  }

  /** The protocol board is the database key with '.' for the space: the
      two encodings of the empty cell differ and nothing else does. */
  lemma WireBoardIsKeyWithDots(b: Board)
    ensures |Key(b)| == 9
    ensures forall i :: 0 <= i < 9 ==>
      WireBoard(b)[i] == (if Key(b)[i] == ' ' then '.' else Key(b)[i])
  {
    KeyChars(b);
    forall i | 0 <= i < 9
      ensures WireBoard(b)[i] == (if Key(b)[i] == ' ' then '.' else Key(b)[i])
    {
      assert WireBoard(b)[i] == WireChar(b[i]);
    }
  }

  /** ":a,b,c", the cell numbers `r * 3 + c` of the winning line. */
  function LineSuffix(l: Line): string
  {
    ":" + Join([IntString(l.first), IntString(l.second), IntString(l.third)], ",")
  }

  /** A decimal number contains no separator of the protocol. */
  lemma NoSeparatorInNumber(i: int)
    ensures ',' !in IntString(i) && ':' !in IntString(i)
  {
    IntStringChars(i);
  }

  /** The line suffix reads back as the three cell numbers. */
  lemma LineSuffixReadsBack(l: Line)
    ensures LineSuffix(l)[0] == ':'
    ensures var parts := Split(LineSuffix(l)[1..], ',');
      && |parts| == 3
      && ParseInt(parts[0]) == Some(l.first)
      && ParseInt(parts[1]) == Some(l.second)
      && ParseInt(parts[2]) == Some(l.third)
  {
    var parts := [IntString(l.first), IntString(l.second), IntString(l.third)];
    NoSeparatorInNumber(l.first);
    NoSeparatorInNumber(l.second);
    NoSeparatorInNumber(l.third);
    SplitJoin(parts, ',');
    assert LineSuffix(l)[1..] == Join(parts, ",");
    IntStringParses(l.first);
    IntStringParses(l.second);
    IntStringParses(l.third);
  }

  /** `get_game_result()`: nothing while there is no game or it is not
      over; otherwise the game's `check_winner()` is asked again (which may
      rewrite `winner_line`), and the text is "DRAW" for a draw, "WIN" or
      "LOSE" by whether the human holds the winning mark, the line appended
      when one is recorded, and nothing for a board that is still open. */
  function GameResult(a: Adapter): (r: (string, Adapter))
    ensures a.instance.None? || !a.instance.value.gameOver ==> r == ("", a)
    ensures a.instance.Some? && a.instance.value.gameOver ==>
      var g := a.instance.value;
      var v := BaseAgent.CheckWinner(g.board);
      && r.1 == a.(instance := Some(PyGame.CheckWinner(g).1))
      && (v == BaseAgent.Draw ==> r.0 == "DRAW")
      && (v == BaseAgent.Ongoing ==> r.0 == "")
      && (v.Winner? ==>
            var l := InterleavedOrder[FirstComplete(g.board, InterleavedOrder, 0).value];
            && Complete(g.board, l) && LineMark(g.board, l) == v.mark
            && r.0 == (if v.mark == g.human then "WIN" else "LOSE") + LineSuffix(l))
  {
    match a.instance
    case None => ("", a)
    case Some(g) =>
      if !g.gameOver then ("", a)
      else
        var (verdict, g2) := PyGame.CheckWinner(g);
        var lineText := match g2.winnerLine case Some(l) => LineSuffix(l) case None => "";
        var text :=
          if verdict == BaseAgent.Draw then "DRAW"
          else if verdict.Winner? && verdict.mark == g2.human then "WIN" + lineText
          else if verdict.Winner? then "LOSE" + lineText
          else "";
        (text, a.(instance := Some(g2)))
  }

  /** `make_move(row, col)`: without a game, or once it is over, the state
      is reported and the manager is not asked; otherwise the manager's game
      is reported whether the call returned or raised, so a move refused
      without a change leaves the game as it was. */
  function MakeMove(a: Adapter, m: Manager, row: int, col: int): (r: Reply)
    ensures a.instance.None? || a.instance.value.gameOver ==>
      r == Reply(BoardString(a), GameResult(a).0, GameResult(a).1)
    ensures a.instance.Some? && !a.instance.value.gameOver ==>
      var a1 := a.(instance := Some(m.makePlayerMove(a.instance.value, row, col).game));
      r == Reply(BoardString(a1), GameResult(a1).0, GameResult(a1).1)
    ensures a.instance.Some? && !a.instance.value.gameOver ==>
      m.makePlayerMove(a.instance.value, row, col) == Raised(a.instance.value) ==>
      r == Reply(BoardString(a), "", a)
  {
    if a.instance.None? || a.instance.value.gameOver then
      var (text, a2) := GameResult(a);
      Reply(BoardString(a), text, a2)
    else
      var a1 := match m.makePlayerMove(a.instance.value, row, col)
        case Returned(g) => a.(instance := Some(g))
        case Raised(_) => a.(instance := Some(m.makePlayerMove(a.instance.value, row, col).game));
      var (text, a2) := GameResult(a1);
      Reply(BoardString(a1), text, a2)
  }

  /** Without a running game the manager's answers make no difference. */
  lemma MakeMoveIgnoresManagerWhenOver(a: Adapter, m1: Manager, m2: Manager, row: int, col: int)
    requires a.instance.None? || a.instance.value.gameOver
    ensures MakeMove(a, m1, row, col) == MakeMove(a, m2, row, col)
  {
  }

  /** The text after "MOVE:" and before any further ':'. */
  function MoveArgument(c: string): Option<string>
  {
    var parts := Split(c, ':');
    if |parts| < 2 then None else Some(parts[1])
  }

  /** `handle_command` once the command is stripped: "RESET" answers
      "RESET"; "START_P1" starts Human (X) against the default agent (O),
      "START_P2" the default agent (X) against Human (O); "MOVE:N" moves at
      `(N // 3, N % 3)` with no range check; a malformed move and any other
      command report the board. */
  function HandleStripped(a: Adapter, m: Manager, c: string): (r: Reply)
    ensures c == "RESET" ==> r == Reply("RESET", "", a)
    ensures c == "START_P1" ==>
      r.next == a.(instance := Some(m.startNewGame("Human", a.defaultAi, X)))
      && r.board == BoardString(r.next) && r.result == ""
    ensures c == "START_P2" ==>
      r.next == a.(instance := Some(m.startNewGame(a.defaultAi, "Human", O)))
      && r.board == BoardString(r.next) && r.result == ""
    ensures c != "RESET" && c != "START_P1" && c != "START_P2" && !(|c| >= 5 && c[..5] == "MOVE:") ==>
      r == Reply(BoardString(a), "", a)
    ensures |c| >= 5 && c[..5] == "MOVE:" && (MoveArgument(c).None? || ParseInt(MoveArgument(c).value).None?) ==>
      r == Reply(BoardString(a), "", a)
    ensures c != "RESET" ==> |r.board| == 9
    ensures r.next != a ==> c == "START_P1" || c == "START_P2" || (|c| >= 5 && c[..5] == "MOVE:")
  {
    assert |c| >= 5 && c[..5] == "MOVE:" ==> c[0] == 'M';
    if c == "RESET" then Reply("RESET", "", a)
    else if c == "START_P1" then
      var a1 := a.(instance := Some(m.startNewGame("Human", a.defaultAi, X)));
      Reply(BoardString(a1), "", a1)
    else if c == "START_P2" then
      var a1 := a.(instance := Some(m.startNewGame(a.defaultAi, "Human", O)));
      Reply(BoardString(a1), "", a1)
    else if |c| >= 5 && c[..5] == "MOVE:" then MoveCommandReply(a, m, c)
    else Reply(BoardString(a), "", a)
  }

  /** The "MOVE:" branch: `int(command.split(":")[1])` failing with an
      `IndexError` or a `ValueError` reports the board and changes nothing;
      a number `n` moves at `(n // 3, n % 3)`. */
  function MoveCommandReply(a: Adapter, m: Manager, c: string): (r: Reply)
    ensures MoveArgument(c).None? || ParseInt(MoveArgument(c).value).None? ==> r == Reply(BoardString(a), "", a)
    ensures MoveArgument(c).Some? && ParseInt(MoveArgument(c).value).Some? ==>
      var n := ParseInt(MoveArgument(c).value).value;
      r == MakeMove(a, m, n / 3, n % 3)
    ensures |r.board| == 9
    ensures r.next != a ==> a.instance.Some?
  {
    match MoveArgument(c)
    case Some(arg) =>
      (match ParseInt(arg)
       case Some(n) => MakeMove(a, m, n / 3, n % 3)
       case None => Reply(BoardString(a), "", a))
    case None => Reply(BoardString(a), "", a)
  }

  /** `handle_command(command)`: the command is stripped of white space
      first. */
  function HandleCommand(a: Adapter, m: Manager, command: string): Reply
  {
    HandleStripped(a, m, Strip(command))
  }

  /** White space around a command is ignored. */
  lemma HandleCommandPadded(a: Adapter, m: Manager, pre: string, command: string, post: string)
    requires AllSpace(pre) && AllSpace(post)
    ensures HandleCommand(a, m, pre + command + post) == HandleCommand(a, m, command)
  {
    StripPadded(pre, command, post);
  }

  /** The argument of "MOVE:" followed by a number is that number's text. */
  lemma MoveArgumentOfNumber(n: int)
    ensures MoveArgument("MOVE:" + IntString(n)) == Some(IntString(n))
  {
    var digits := IntString(n);
    NoSeparatorInNumber(n);
    assert ':' !in "MOVE";
    SplitJoin(["MOVE", digits], ':');
    assert Join(["MOVE", digits], ":") == "MOVE:" + digits;
  }

  /** "MOVE:" followed by a number is its own `strip`. */
  lemma MoveCommandStripped(n: int)
    ensures Strip("MOVE:" + IntString(n)) == "MOVE:" + IntString(n)
  {
    var c := "MOVE:" + IntString(n);
    IntStringChars(n);
    assert c[|c| - 1] == IntString(n)[|IntString(n)| - 1];
    StripVisible(c);
  }

  /** A "MOVE:" command whose argument reads as `n` moves at
      `(n // 3, n % 3)`. */
  lemma MoveOfArgument(a: Adapter, m: Manager, c: string, n: int)
    requires |c| >= 5 && c[..5] == "MOVE:"
    requires MoveArgument(c).Some? && ParseInt(MoveArgument(c).value) == Some(n)
    ensures HandleStripped(a, m, c) == MakeMove(a, m, n / 3, n % 3)
  {
    assert c[0] == 'M';
    assert c != "RESET" && c != "START_P1" && c != "START_P2";
    var r := MoveCommandReply(a, m, c);
    assert r == MakeMove(a, m, n / 3, n % 3);
  }

  /** "MOVE:" followed by `str(n)` is a move at Python's
      `(n // 3, n % 3)`: cell `n` for 0..8, and floor division for the
      numbers the client should never send ("MOVE:-1" is row -1, column 2). */
  lemma MoveCommand(a: Adapter, m: Manager, n: int)
    ensures HandleCommand(a, m, "MOVE:" + IntString(n)) == MakeMove(a, m, n / 3, n % 3)
  {
    var c := "MOVE:" + IntString(n);
    MoveArgumentOfNumber(n);
    IntStringParses(n);
    assert c[..5] == "MOVE:";
    MoveOfArgument(a, m, c, n);
    MoveCommandStripped(n);
    assert HandleCommand(a, m, c) == HandleStripped(a, m, c);
  }
}
