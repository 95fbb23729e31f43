/** `display_board` of `CUI/cui_display.py`: the text the console client
    prints for a game state, modelled as the string the `print` calls
    write, each call ending in a newline. */
module CuiDisplay {
  import opened Outcomes
  import opened Grid
  import opened BoardKey
  import opened PyText

  /** The JSON game state the client receives: the rows of cell strings,
      the winner (`null` or a string), `game_over` and `current_player`. */
  datatype BoardState = BoardState(
    board: seq<seq<string>>,
    winner: Option<string>,
    gameOver: bool,
    currentPlayer: string)

  const Title: string := "\n--- Tic Tac Toe Board ---"
  const Rule: string := "-------------------------\n"
  const DrawText: string := "Game Over: It's a draw!"
  const OverText: string := "Game Over."

  /** A cell as shown: an empty cell `" "` becomes its number
      `r * 3 + c + 1`, anything else is shown as it is. */
  function ShownCell(cell: string, r: nat, c: nat): string
  {
    if cell == " " then IntString(r * 3 + c + 1) else cell
  }

  /** The shown cells of row `r`. */
  function ShownRow(row: seq<string>, r: nat): (shown: seq<string>)
    ensures |shown| == |row|
  {
    seq(|row|, c requires 0 <= c < |row| => ShownCell(row[c], r, c))
  }

  /** `"| " + " | ".join(row) + " |"`. */
  function RowLine(row: seq<string>, r: nat): string
  {
    "| " + Join(ShownRow(row, r), " | ") + " |"
  }

  /** A truthy winner is a non-empty string. */
  predicate HasWinner(s: BoardState)
  {
    s.winner.Some? && s.winner.value != ""
  }

  /** The last line: the draw, the winner, a bare "Game Over." or whose
      turn it is. */
  function StatusLine(s: BoardState): string
  {
    if HasWinner(s) then
      if s.winner.value == "draw" then DrawText else "Game Over: Player " + s.winner.value + " wins!"
    else if s.gameOver then OverText
    else "Current Player: " + s.currentPlayer
  }

  /** What a sequence of `print` calls writes. */
  function Printed(lines: seq<string>): string
  {
    if |lines| == 0 then "" else lines[0] + "\n" + Printed(lines[1..])
  }

  /** The row lines of the grid, one per row of the board. */
  function GridLines(board: seq<seq<string>>): (lines: seq<string>)
    ensures |lines| == |board|
  {
    seq(|board|, r requires 0 <= r < |board| => RowLine(board[r], r))
  }

  /** `display_board(board_state)`: the title, one line per row, the rule
      with its blank line, and the status. */
  function Display(s: BoardState): string
  {
    Printed([Title] + GridLines(s.board) + [Rule, StatusLine(s)])
  }

  /** The draw message appears exactly when the winner is "draw". */
  lemma StatusShowsDraw(s: BoardState)
    ensures StatusLine(s) == DrawText <==> s.winner == Some("draw")
  {
    if HasWinner(s) && s.winner.value != "draw" {
      var t := "Game Over: Player " + s.winner.value + " wins!";
      assert t[11] == 'P' != DrawText[11];
    } else if !HasWinner(s) && !s.gameOver {
      var t := "Current Player: " + s.currentPlayer;
      assert t[0] == 'C' != DrawText[0];
    }
  }

  /** The status begins "Game Over" exactly when there is a winner or the
      game is over. */
  lemma StatusShowsGameOver(s: BoardState)
    ensures var t := StatusLine(s);
      |t| >= 9 && (t[..9] == "Game Over" <==> HasWinner(s) || s.gameOver)
  {
    var t := StatusLine(s);
    if HasWinner(s) && s.winner.value != "draw" {
      assert t[..9] == "Game Over";
    } else if !HasWinner(s) && !s.gameOver {
      assert t[0] == 'C';
    }
  }

  lemma {:induction false} PrintedAppend(xs: seq<string>, ys: seq<string>)
    ensures Printed(xs + ys) == Printed(xs) + Printed(ys)
  {
    if |xs| == 0 {
      assert xs + ys == ys;
    } else {
      assert (xs + ys)[1..] == xs[1..] + ys;
      PrintedAppend(xs[1..], ys);
    }
  }

  /** How a cell of a server board is shown: its mark, or the digit of its
      number `i + 1` when it is empty. */
  function ShownChar(c: Cell, i: nat): char
    requires i < 9
  {
    match c
    case X => 'X'
    case O => 'O'
    case Empty => DigitChar(i + 1)
  }

  /** A cell of a server board is shown as one character. */
  lemma ShownCellOfRows(b: Board, r: nat, c: nat)
    requires r < 3 && c < 3
    ensures ShownCell(Rows(b)[r][c], r, c) == [ShownChar(b[3 * r + c], 3 * r + c)]
  {
  }

  /** Row `r` of a server board is the 13-character line
      "| a | b | c |". */
  lemma RowLineOfRows(b: Board, r: nat)
    requires r < 3
    ensures var x := ShownChar(b[3 * r], 3 * r);
      var y := ShownChar(b[3 * r + 1], 3 * r + 1);
      var z := ShownChar(b[3 * r + 2], 3 * r + 2);
      RowLine(Rows(b)[r], r) == ['|', ' ', x, ' ', '|', ' ', y, ' ', '|', ' ', z, ' ', '|']
  {
    ShownCellOfRows(b, r, 0);
    ShownCellOfRows(b, r, 1);
    ShownCellOfRows(b, r, 2);
    var shown := ShownRow(Rows(b)[r], r);
    assert shown == [shown[0], shown[1], shown[2]];
    assert shown[1..] == [shown[1], shown[2]];
    assert shown[1..][1..] == [shown[2]];
    assert Join(shown[1..], " | ") == shown[1] + " | " + shown[2];
    assert Join(shown, " | ") == shown[0] + " | " + (shown[1] + " | " + shown[2]);
  }

  /** Where cell `i` of a server board is shown: after the 27 characters of
      the title line, on line `i / 3` of 14 characters, at column
      `2 + 4 * (i % 3)`. */
  function CellOffset(i: nat): nat
  {
    27 + 14 * (i / 3) + 2 + 4 * (i % 3)
  }

  lemma PrintedCons(x: string, rest: seq<string>)
    ensures Printed([x] + rest) == x + "\n" + Printed(rest)
  {
    assert ([x] + rest)[1..] == rest;
  }

  /** Three printed 13-character lines: line `r` starts at `14 * r`. */
  lemma ThreeLinesAt(l0: string, l1: string, l2: string, r: nat, k: nat)
    requires |l0| == |l1| == |l2| == 13 && r < 3 && k < 13
    ensures |Printed([l0, l1, l2])| == 42
    ensures Printed([l0, l1, l2])[14 * r + k] == [l0, l1, l2][r][k]
  {
    PrintedCons(l2, []);
    PrintedCons(l1, [l2]);
    PrintedCons(l0, [l1, l2]);
    assert [l0] + [l1, l2] == [l0, l1, l2];
    assert [l1] + [l2] == [l1, l2];
  }

  /** Row `r` of a server board has 13 characters with cell `(r, c)` at
      column `2 + 4 * c`. */
  lemma RowLineCells(b: Board, r: nat)
    requires r < 3
    ensures |RowLine(Rows(b)[r], r)| == 13
    ensures forall c :: 0 <= c < 3 ==> RowLine(Rows(b)[r], r)[2 + 4 * c] == ShownChar(b[3 * r + c], 3 * r + c)
  {
    RowLineOfRows(b, r);
  }

  /** Cell `i` of a server board within the printed row lines. */
  lemma CellInGrid(b: Board, i: nat)
    requires i < 9
    ensures |Printed(GridLines(Rows(b)))| == 42
    ensures Printed(GridLines(Rows(b)))[CellOffset(i) - 27] == ShownChar(b[i], i)
  {
    var lines := GridLines(Rows(b));
    var r, c := i / 3, i % 3;
    RowLineCells(b, 0);
    RowLineCells(b, 1);
    RowLineCells(b, 2);
    assert lines == [lines[0], lines[1], lines[2]];
    ThreeLinesAt(lines[0], lines[1], lines[2], r, 2 + 4 * c);
    assert lines[r] == RowLine(Rows(b)[r], r);
  }

  /** The three row lines of a server board print as a 42-character block
      with cell `i` at `CellOffset(i) - 27`. */
  lemma GridBlock(b: Board)
    ensures |Printed(GridLines(Rows(b)))| == 42
    ensures forall i :: 0 <= i < 9 ==> Printed(GridLines(Rows(b)))[CellOffset(i) - 27] == ShownChar(b[i], i)
  {
    CellInGrid(b, 0);
    forall i | 0 <= i < 9
      ensures Printed(GridLines(Rows(b)))[CellOffset(i) - 27] == ShownChar(b[i], i)
    {
      CellInGrid(b, i);
    }
  }

  /** On a server board the text is the title line, the 42-character grid,
      the rule with its blank line, and the status line, so cell `i` is
      always shown at `CellOffset(i)` and the status starts at 96. */
  lemma DisplayOfBoard(s: BoardState, b: Board)
    requires s.board == Rows(b)
    ensures |Display(s)| == 96 + |StatusLine(s)| + 1
    ensures Display(s)[..27] == Title + "\n"
    ensures Display(s)[69..96] == Rule + "\n"
    ensures Display(s)[96..] == StatusLine(s) + "\n"
    ensures forall i :: 0 <= i < 9 ==> Display(s)[CellOffset(i)] == ShownChar(b[i], i)
  {
    var grid := GridLines(Rows(b));
    var tail := [Rule, StatusLine(s)];
    PrintedAppend([Title] + grid, tail);
    PrintedAppend([Title], grid);
    PrintedCons(StatusLine(s), []);
    PrintedCons(Rule, [StatusLine(s)]);
    PrintedCons(Title, []);
    assert [Rule] + [StatusLine(s)] == tail;
    GridBlock(b);
    var t := Display(s);
    assert t == (Title + "\n") + Printed(grid) + (Rule + "\n") + (StatusLine(s) + "\n");
  }

  /** The cell a shown character stands for at cell number `i`: a mark, or
      the cell's own digit for an empty cell. */
  function ReadShown(ch: char, i: nat): Option<Cell>
    requires i < 9
  {
    if ch == 'X' then Some(X)
    else if ch == 'O' then Some(O)
    else if ch == DigitChar(i + 1) then Some(Empty)
    else None
  }

  /** The board a player reads off the printed text. */
  function ReadBoard(text: string): Option<Board>
  {
    if |text| > CellOffset(8) && forall i :: 0 <= i < 9 ==> ReadShown(text[CellOffset(i)], i).Some? then
      Some(seq(9, i requires 0 <= i < 9 => ReadShown(text[CellOffset(i)], i).value))
    else None
  }

  /** The printed text of a server board shows that board: reading it back
      gives the board, whatever the status line says. */
  lemma DisplayShowsBoard(s: BoardState, b: Board)
    requires s.board == Rows(b)
    ensures ReadBoard(Display(s)) == Some(b)
  {
    DisplayOfBoard(s, b);
    var t := Display(s);
    assert forall i :: 0 <= i < 9 ==> ReadShown(t[CellOffset(i)], i) == Some(b[i]);
    assert ReadBoard(t).value == b;
  }
}
