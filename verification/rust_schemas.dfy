/** `board_serializer` of `rust/tic_tac_toe_server_rust/src/schemas.rs` and
    the `BoardState` response.  A JSON board is the array of arrays of
    strings serde sees; each string goes through `Player::from_str`
    (`RustGame.ParsePlayer`) as serde reads it, so a bad cell is reported
    before the shape is looked at. */
module RustSchemas {
  import opened Outcomes
  import opened Grid
  import opened RustGame
  import BoardKey

  /** A board as JSON: rows of cell strings. */
  type JsonBoard = seq<seq<string>>

  /** The `BoardState` response body. */
  datatype BoardState = BoardState(
    board: Board,
    currentPlayer: Cell,
    winner: Option<Cell>,
    winnerLine: Option<Line>,
    gameOver: bool)

  /** `serialize`: three rows of three `Display` strings. */
  function Serialize(b: Board): (v: JsonBoard)
    ensures |v| == 3 && forall i :: 0 <= i < 3 ==> |v[i]| == 3
    ensures forall i, j :: 0 <= i < 3 && 0 <= j < 3 ==> ParsePlayer(v[i][j]) == Ok(b[3 * i + j])
  {
    seq(3, i requires 0 <= i < 3 => seq(3, j requires 0 <= j < 3 => PlayerText(b[3 * i + j])))
  }

  /** Every cell string, in reading order, is one `from_str` accepts. */
  predicate CellsValid(v: JsonBoard)
  {
    forall i, j :: 0 <= i < |v| && 0 <= j < |v[i]| ==> ParsePlayer(v[i][j]).Ok?
  }

  /** The cells of one row, stopping at the first string `from_str`
      rejects. */
  function ParseRow(row: seq<string>): Result<seq<Cell>, string>
  {
    if |row| == 0 then Ok([])
    else match ParsePlayer(row[0])
      case Err(e) => Err(e)
      case Ok(c) =>
        match ParseRow(row[1..])
        case Err(e) => Err(e)
        case Ok(cs) => Ok([c] + cs)
  }

  /** `Vec::<Vec<Player>>::deserialize`: the rows in order, stopping at the
      first row holding a rejected string. */
  function ParseRows(v: JsonBoard): Result<seq<seq<Cell>>, string>
  {
    if |v| == 0 then Ok([])
    else match ParseRow(v[0])
      case Err(e) => Err(e)
      case Ok(row) =>
        match ParseRows(v[1..])
        case Err(e) => Err(e)
        case Ok(rows) => Ok([row] + rows)
  }

  /** A row parses exactly when each of its strings does, cell by cell. */
  lemma {:induction false} ParseRowOk(row: seq<string>)
    ensures ParseRow(row).Ok? <==> forall j :: 0 <= j < |row| ==> ParsePlayer(row[j]).Ok?
    ensures ParseRow(row).Ok? ==> (|ParseRow(row).value| == |row| &&
      forall j :: 0 <= j < |row| ==> ParseRow(row).value[j] == ParsePlayer(row[j]).value)
  {
    if |row| > 0 {
      ParseRowOk(row[1..]);
      assert forall j :: 1 <= j < |row| ==> row[j] == row[1..][j - 1];
    }
  }

  /** A failing row reports its first rejected string. */
  lemma {:induction false} ParseRowErr(row: seq<string>)
    requires ParseRow(row).Err?
    ensures exists j :: (0 <= j < |row| && (forall k :: 0 <= k < j ==> ParsePlayer(row[k]).Ok?) &&
      ParsePlayer(row[j]).Err? && ParseRow(row).error == "Invalid player string: " + row[j])
  {
    if ParsePlayer(row[0]).Ok? {
      ParseRowErr(row[1..]);
      var j :| 0 <= j < |row[1..]| && (forall k :: 0 <= k < j ==> ParsePlayer(row[1..][k]).Ok?) &&
        ParsePlayer(row[1..][j]).Err? && ParseRow(row[1..]).error == "Invalid player string: " + row[1..][j];
      assert forall k :: 1 <= k < j + 1 ==> row[k] == row[1..][k - 1];
      assert row[j + 1] == row[1..][j];
    } else {
      assert ParsePlayer(row[0]).Err?;
    }
  }

  /** The rows parse exactly when every cell string does, and then each row
      is its cells. */
  lemma {:induction false} ParseRowsOk(v: JsonBoard)
    ensures ParseRows(v).Ok? <==> CellsValid(v)
    ensures ParseRows(v).Ok? ==> (|ParseRows(v).value| == |v| &&
      forall i :: 0 <= i < |v| ==> ParseRow(v[i]) == Ok(ParseRows(v).value[i]))
  {
    if |v| > 0 {
      ParseRowsOk(v[1..]);
      ParseRowOk(v[0]);
      assert forall i :: 1 <= i < |v| ==> v[i] == v[1..][i - 1];
      if CellsValid(v[1..]) && ParseRow(v[0]).Ok? {
        assert CellsValid(v) by {
          forall i, j | 0 <= i < |v| && 0 <= j < |v[i]| ensures ParsePlayer(v[i][j]).Ok? {
            if i > 0 { assert v[i][j] == v[1..][i - 1][j]; }
          }
        }
      }
      if CellsValid(v) {
        assert forall j :: 0 <= j < |v[0]| ==> ParsePlayer(v[0][j]).Ok?;
        assert CellsValid(v[1..]) by {
          forall i, j | 0 <= i < |v[1..]| && 0 <= j < |v[1..][i]| ensures ParsePlayer(v[1..][i][j]).Ok? {
            assert v[1..][i] == v[i + 1];
          }
        }
      }
    }
  }

  /** Every string before row `i`, column `j` in reading order is valid. */
  predicate ValidBefore(v: JsonBoard, i: nat, j: nat)
    requires i < |v|
  {
    && (forall k, l :: 0 <= k < i && 0 <= l < |v[k]| ==> ParsePlayer(v[k][l]).Ok?)
    && (forall l :: 0 <= l < j && l < |v[i]| ==> ParsePlayer(v[i][l]).Ok?)
  }

  /** Failing rows report the first rejected string in reading order. */
  lemma {:induction false} ParseRowsErr(v: JsonBoard)
    requires ParseRows(v).Err?
    ensures exists i, j :: (0 <= i < |v| && 0 <= j < |v[i]| && ValidBefore(v, i, j) &&
      ParsePlayer(v[i][j]).Err? && ParseRows(v).error == "Invalid player string: " + v[i][j])
  {
    if ParseRow(v[0]).Err? {
      ParseRowErr(v[0]);
      var j :| 0 <= j < |v[0]| && (forall k :: 0 <= k < j ==> ParsePlayer(v[0][k]).Ok?) &&
        ParsePlayer(v[0][j]).Err? && ParseRow(v[0]).error == "Invalid player string: " + v[0][j];
      assert ValidBefore(v, 0, j);
    } else {
      ParseRowOk(v[0]);
      ParseRowsErr(v[1..]);
      var i, j :| 0 <= i < |v[1..]| && 0 <= j < |v[1..][i]| && ValidBefore(v[1..], i, j) &&
        ParsePlayer(v[1..][i][j]).Err? && ParseRows(v[1..]).error == "Invalid player string: " + v[1..][i][j];
      assert v[1..][i] == v[i + 1];
      assert ValidBefore(v, i + 1, j) by {
        forall k, l | 0 <= k < i + 1 && 0 <= l < |v[k]| ensures ParsePlayer(v[k][l]).Ok? {
          if k > 0 { assert v[k] == v[1..][k - 1]; }
        }
      }
    }
  }

  /** `deserialize`: the cell strings are parsed first, then the number of
      rows and the length of each row are checked. */
  function Deserialize(v: JsonBoard): Result<Board, string>
  {
    match ParseRows(v)
    case Err(e) => Err(e)
    case Ok(rows) =>
      if |rows| != 3 then Err("Board must have 3 rows")
      else if exists i :: 0 <= i < 3 && |rows[i]| != 3 then Err("Each row of the board must have 3 elements")
      else
        var b: Board := seq(9, k requires 0 <= k < 9 => rows[k / 3][k % 3]);
        Ok(b)
  }

  /** A board is read exactly from three rows of three valid strings. */
  lemma DeserializeAccepts(v: JsonBoard)
    ensures Deserialize(v).Ok? <==> CellsValid(v) && |v| == 3 && forall i :: 0 <= i < 3 ==> |v[i]| == 3
  {
    ParseRowsOk(v);
    if CellsValid(v) && |v| == 3 {
      forall i | 0 <= i < 3 ensures |ParseRows(v).value[i]| == |v[i]| {
        ParseRowOk(v[i]);
      }
    }
  }

  /** Each cell of a board read is the parsed string at its row and
      column. */
  lemma DeserializeCells(v: JsonBoard)
    requires CellsValid(v) && |v| == 3 && forall i :: 0 <= i < 3 ==> |v[i]| == 3
    ensures Deserialize(v).Ok?
    ensures forall i, j :: 0 <= i < 3 && 0 <= j < 3 ==> Deserialize(v).value[3 * i + j] == ParsePlayer(v[i][j]).value
  {
    DeserializeAccepts(v);
    ParseRowsOk(v);
    var rows := ParseRows(v).value;
    forall i, j | 0 <= i < 3 && 0 <= j < 3
      ensures Deserialize(v).value[3 * i + j] == ParsePlayer(v[i][j]).value
    {
      ParseRowOk(v[i]);
      var k := 3 * i + j;
      assert k / 3 == i && k % 3 == j;
      assert Deserialize(v).value[k] == rows[i][j];
    }
  }

  /** A rejected string is reported before any shape error: the first one
      in reading order, whatever the shape. */
  lemma DeserializeRejectsCell(v: JsonBoard)
    requires !CellsValid(v)
    ensures exists i, j :: (0 <= i < |v| && 0 <= j < |v[i]| && ValidBefore(v, i, j) &&
      ParsePlayer(v[i][j]).Err? && Deserialize(v) == Err("Invalid player string: " + v[i][j]))
  {
    ParseRowsOk(v);
    ParseRowsErr(v);
  }

  /** With valid strings, a wrong number of rows is reported before a row of
      the wrong length. */
  lemma DeserializeRejectsShape(v: JsonBoard)
    requires CellsValid(v)
    ensures |v| != 3 ==> Deserialize(v) == Err("Board must have 3 rows")
    ensures |v| == 3 && (exists i :: 0 <= i < 3 && |v[i]| != 3) ==>
      Deserialize(v) == Err("Each row of the board must have 3 elements")
  {
    ParseRowsOk(v);
    if |v| == 3 {
      forall i | 0 <= i < 3 ensures |ParseRows(v).value[i]| == |v[i]| {
        ParseRowOk(v[i]);
      }
    }
  }

  /** Reading back what `serialize` wrote gives the board. */
  lemma DeserializeSerialize(b: Board)
    ensures Deserialize(Serialize(b)) == Ok(b)
  {
    var v := Serialize(b);
    forall i, j | 0 <= i < 3 && 0 <= j < 3 ensures ParsePlayer(v[i][j]) == Ok(b[3 * i + j]) {
      ParsePlayerText(b[3 * i + j]);
    }
    assert CellsValid(v);
    DeserializeCells(v);
    var r := Deserialize(v).value;
    forall k | 0 <= k < 9 ensures r[k] == b[k] {
      var i, j := k / 3, k % 3;
      assert k == 3 * i + j;
      assert r[3 * i + j] == ParsePlayer(v[i][j]).value;
    }
    assert r == b;
  }

  /** The Rust JSON board and the Python board lists hold the same strings,
      so one client draws both servers' boards. */
  lemma SerializeIsPythonRows(b: Board)
    ensures Serialize(b) == BoardKey.Rows(b)
  {
    var v, w := Serialize(b), BoardKey.Rows(b);
    forall i | 0 <= i < 3 ensures v[i] == w[i] {
      forall j | 0 <= j < 3 ensures v[i][j] == w[i][j] {
        assert PlayerText(b[3 * i + j]) == [BoardKey.PyChar(b[3 * i + j])];
      }
    }
  }
}
