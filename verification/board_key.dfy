/** The 9-character board key of the Python side: `board_to_string` and
    `string_to_board` of `create_database.py`.  `agents/database_agent.py` and
    `agents/perfect_agent.py` carry copies of the same `board_to_string`
    expression, so all three are this one `Key`. */
module BoardKey {
  import opened Outcomes
  import opened Grid

  /** The Python cell strings "X", "O" and " ", one character each. */
  function PyChar(c: Cell): char
  {
    match c
    case X => 'X'
    case O => 'O'
    case Empty => ' '
  }

  /** The cell a key character stands for, if any. */
  function PyCellOf(ch: char): (r: Option<Cell>)
    ensures r.Some? ==> PyChar(r.value) == ch
  {
    if ch == 'X' then Some(X)
    else if ch == 'O' then Some(O)
    else if ch == ' ' then Some(Empty)
    else None
  }

  /** Reading back a written cell gives the cell. */
  lemma PyCellRoundTrip(c: Cell)
    ensures PyCellOf(PyChar(c)) == Some(c)
  {}

  /** The cells written one character each. */
  function Chars(s: seq<Cell>): string
  {
    if |s| == 0 then "" else [PyChar(s[0])] + Chars(s[1..])
  }

  lemma {:induction false} CharsAt(s: seq<Cell>)
    ensures |Chars(s)| == |s|
    ensures forall i :: 0 <= i < |s| ==> Chars(s)[i] == PyChar(s[i])
  {
    if |s| > 0 {
      CharsAt(s[1..]);
    }
  }

  /** `board_to_string`: the nine cells row-major, one character each, the
      empty cell written as a space. */
  function Key(b: Board): string
  {
    Chars(b)
  }

  /** The key has nine characters, character `i` standing for cell `i`. */
  lemma KeyChars(b: Board)
    ensures |Key(b)| == 9
    ensures forall i :: 0 <= i < 9 ==> Key(b)[i] == PyChar(b[i])
  {
    CharsAt(b);
  }

  /** Every character of `s` read as a cell, or `None` at the first
      character that is not 'X', 'O' or ' '. */
  function Cells(s: string): (r: Option<seq<Cell>>)
    ensures r.Some? ==> |r.value| == |s|
  {
    if |s| == 0 then Some([])
    else
      match (PyCellOf(s[0]), Cells(s[1..]))
      case (Some(c), Some(rest)) => Some([c] + rest)
      case _ => None
  }

  /** `string_to_board` read as a board: the three 3-character slices
      `s[0:3]`, `s[3:6]`, `s[6:9]` as rows.  It is a board of cells exactly
      when the string has nine characters, each 'X', 'O' or ' '. */
  function StringToBoard(s: string): (r: Option<Board>)
  {
    if |s| != 9 then None
    else
      match Cells(s)
      case Some(cells) => var b: Board := cells; Some(b)
      case None => None
  }

  lemma {:induction false} CellsDecode(s: string)
    ensures Cells(s).Some? <==> forall i :: 0 <= i < |s| ==> PyCellOf(s[i]).Some?
    ensures Cells(s).Some? ==> forall i :: 0 <= i < |s| ==> PyCellOf(s[i]) == Some(Cells(s).value[i])
  {
    if |s| > 0 {
      CellsDecode(s[1..]);
      assert forall i :: 1 <= i < |s| ==> s[i] == s[1..][i - 1];
    }
  }

  /** A string is read as a board exactly when it has nine characters, each
      'X', 'O' or ' ', and cell `i` is then character `i` decoded. */
  lemma StringToBoardDecodes(s: string)
    ensures StringToBoard(s).Some? <==> |s| == 9 && forall i :: 0 <= i < 9 ==> PyCellOf(s[i]).Some?
    ensures StringToBoard(s).Some? ==> forall i :: 0 <= i < 9 ==> PyCellOf(s[i]) == Some(StringToBoard(s).value[i])
  {
    CellsDecode(s);
  }

  /** `string_to_board` inverts `board_to_string`. */
  lemma KeyRoundTrip(b: Board)
    ensures StringToBoard(Key(b)) == Some(b)
  {
    var k := Key(b);
    KeyChars(b);
    forall i | 0 <= i < 9
      ensures PyCellOf(k[i]) == Some(b[i])
    {
      PyCellRoundTrip(b[i]);
    }
    StringToBoardDecodes(k);
    var r := StringToBoard(k);
    assert r.value == b;
  }

  /** `board_to_string` inverts `string_to_board` on every well-formed key. */
  lemma StringRoundTrip(s: string)
    requires StringToBoard(s).Some?
    ensures Key(StringToBoard(s).value) == s
  {
    StringToBoardDecodes(s);
    KeyChars(StringToBoard(s).value);
  }

  /** Different boards have different keys, so a table keyed by `Key` never
      confuses two positions. */
  lemma KeyInjective(a: Board, b: Board)
    requires Key(a) == Key(b)
    ensures a == b
  {
    KeyRoundTrip(a);
    KeyRoundTrip(b);
  }

  /** The board as the rows of one-character strings the game servers put
      in their JSON state: "X", "O" and " ". */
  function Rows(b: Board): (rows: seq<seq<string>>)
    ensures |rows| == 3 && forall r :: 0 <= r < 3 ==> |rows[r]| == 3
  {
    seq(3, r requires 0 <= r < 3 => seq(3, c requires 0 <= c < 3 => [PyChar(b[3 * r + c])]))
  }
}
