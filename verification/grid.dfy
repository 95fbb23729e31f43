/** The 3x3 board shared by the Python and the Rust games: cells, positions,
    the eight lines and the scan for the first complete one, the count of
    empty cells that every search decreases, and the list of free cells. */
module Grid {
  import opened Outcomes

  /** One cell: a player's mark or nothing.  Python writes the cells as the
      strings "X", "O" and " "; Rust's `Player` enum calls the empty cell
      `Player::None`. */
  datatype Cell = X | O | Empty

  predicate IsMark(c: Cell) { c != Empty }

  /** Python's `"O" if p == "X" else "X"`, shared by `switch_player`,
      `get_opponent` and the minimising ply of the agent's minimax. */
  function OtherMark(c: Cell): (r: Cell)
    ensures IsMark(r)
    ensures IsMark(c) ==> r != c
    ensures r == O <==> c == X
  {
    if c == X then O else X
  }

  /** On the two marks the Python opponent rule is an involution. */
  lemma OtherMarkInvolution(c: Cell)
    requires IsMark(c)
    ensures OtherMark(OtherMark(c)) == c
  {}

  /** Nine cells in row-major order: cell `r * 3 + c` is `board[r][c]`. */
  type Board = b: seq<Cell> | |b| == 9
    witness [Empty, Empty, Empty, Empty, Empty, Empty, Empty, Empty, Empty]

  const EmptyBoard: Board := [Empty, Empty, Empty, Empty, Empty, Empty, Empty, Empty, Empty]

  /** A `(row, col)` pair as the sources pass it around.  Python accepts any
      integer here, so the coordinates are unbounded. */
  datatype Pos = Pos(row: int, col: int)

  predicate OnBoard(p: Pos) { 0 <= p.row < 3 && 0 <= p.col < 3 }

  /** The row-major cell number `r * 3 + c`. */
  function Index(p: Pos): int { 3 * p.row + p.col }

  /** `index_to_move`: `(i // 3, i % 3)`.  Python's floor division and
      Dafny's Euclidean division agree for the positive divisor 3. */
  function PosOf(i: int): (p: Pos)
    ensures Index(p) == i
    ensures 0 <= p.col < 3
    ensures 0 <= i < 9 <==> OnBoard(p)
  {
    Pos(i / 3, i % 3)
  }

  /** `index_to_move` inverts `r * 3 + c` on the board. */
  lemma PosOfIndex(p: Pos)
    requires OnBoard(p)
    ensures PosOf(Index(p)) == p
  {}

  /** The cell at `p`, read as `Empty` off the board. */
  function CellAt(b: Board, p: Pos): Cell
  {
    if OnBoard(p) then b[Index(p)] else Empty
  }

  /** Cell number `i`, read as `Empty` off the board. */
  function CellNo(b: Board, i: int): Cell { if 0 <= i < 9 then b[i] else Empty }

  /** Three cells checked together for three equal marks, each named by
      its row-major number `r * 3 + c`. */
  datatype Line = Line(first: int, second: int, third: int)

  function Row(i: int): Line { Line(3 * i, 3 * i + 1, 3 * i + 2) }

  function Column(i: int): Line { Line(i, 3 + i, 6 + i) }

  const MainDiagonal: Line := Line(0, 4, 8)

  const AntiDiagonal: Line := Line(2, 4, 6)

  /** The Python scans (`game_logic.py`, `agents/base_agent.py`): row i, then
      column i, for i = 0, 1, 2, then the two diagonals. */
  const InterleavedOrder: seq<Line> :=
    [Row(0), Column(0), Row(1), Column(1), Row(2), Column(2), MainDiagonal, AntiDiagonal]

  /** The scan of `create_database.py` and of the Rust `check_winner_logic`:
      the three rows, the three columns, then the two diagonals. */
  const RowsFirstOrder: seq<Line> :=
    [Row(0), Row(1), Row(2), Column(0), Column(1), Column(2), MainDiagonal, AntiDiagonal]

  /** Python's `a == b == c != " "` and Rust's `p1 != None && p1 == p2 && p2 == p3`. */
  predicate Complete(b: Board, l: Line)
  {
    && CellNo(b, l.first) != Empty
    && CellNo(b, l.first) == CellNo(b, l.second)
    && CellNo(b, l.second) == CellNo(b, l.third)
  }

  /** The mark a complete line is made of. */
  function LineMark(b: Board, l: Line): Cell { CellNo(b, l.first) }

  /** The position in `order` of the first complete line at or after `from`. */
  function FirstComplete(b: Board, order: seq<Line>, from: nat): (r: Option<nat>)
    requires from <= |order|
    ensures r.Some? ==> from <= r.value < |order| && Complete(b, order[r.value])
    ensures r.Some? ==> forall k :: from <= k < r.value ==> !Complete(b, order[k])
    ensures r.None? <==> forall k :: from <= k < |order| ==> !Complete(b, order[k])
    decreases |order| - from
  {
    if from == |order| then None
    else if Complete(b, order[from]) then Some(from)
    else FirstComplete(b, order, from + 1)
  }

  /** The first complete line of an eight-line order, unrolled the way the
      sources write the scan. */
  lemma UnrollEight(b: Board, order: seq<Line>)
    requires |order| == 8
    ensures FirstComplete(b, order, 0) ==
      if Complete(b, order[0]) then Some(0)
      else if Complete(b, order[1]) then Some(1)
      else if Complete(b, order[2]) then Some(2)
      else if Complete(b, order[3]) then Some(3)
      else if Complete(b, order[4]) then Some(4)
      else if Complete(b, order[5]) then Some(5)
      else if Complete(b, order[6]) then Some(6)
      else if Complete(b, order[7]) then Some(7)
      else None
  {
    assert FirstComplete(b, order, 8) == None;
    assert FirstComplete(b, order, 7) == if Complete(b, order[7]) then Some(7) else None;
    assert FirstComplete(b, order, 6) == if Complete(b, order[6]) then Some(6) else FirstComplete(b, order, 7);
    assert FirstComplete(b, order, 5) == if Complete(b, order[5]) then Some(5) else FirstComplete(b, order, 6);
    assert FirstComplete(b, order, 4) == if Complete(b, order[4]) then Some(4) else FirstComplete(b, order, 5);
    assert FirstComplete(b, order, 3) == if Complete(b, order[3]) then Some(3) else FirstComplete(b, order, 4);
    assert FirstComplete(b, order, 2) == if Complete(b, order[2]) then Some(2) else FirstComplete(b, order, 3);
    assert FirstComplete(b, order, 1) == if Complete(b, order[1]) then Some(1) else FirstComplete(b, order, 2);
  }

  /** Both scan orders see a complete line on the same boards, and the first
      line each finds carries the same mark: two complete lines of different
      marks share no cell, so both are rows or both are columns, and both
      orders meet rows (and columns) from the lowest index up. */
  lemma ScanOrdersAgreeOnMark(b: Board)
    ensures FirstComplete(b, InterleavedOrder, 0).Some? <==> FirstComplete(b, RowsFirstOrder, 0).Some?
    ensures FirstComplete(b, InterleavedOrder, 0).Some? ==>
      LineMark(b, InterleavedOrder[FirstComplete(b, InterleavedOrder, 0).value])
      == LineMark(b, RowsFirstOrder[FirstComplete(b, RowsFirstOrder, 0).value])
  {
    UnrollEight(b, InterleavedOrder);
    UnrollEight(b, RowsFirstOrder);
  }

  /** The orders can disagree on the line: with row 1 and column 0 both full
      of X, the Python scan reports column 0 and the rows-first scan row 1. */
  lemma ScanOrdersMayDisagreeOnLine()
    ensures var b: Board := [X, Empty, Empty, X, X, X, X, Empty, Empty];
      && FirstComplete(b, InterleavedOrder, 0) == Some(1)
      && InterleavedOrder[1] == Column(0)
      && FirstComplete(b, RowsFirstOrder, 0) == Some(1)
      && RowsFirstOrder[1] == Row(1)
  {
    var b: Board := [X, Empty, Empty, X, X, X, X, Empty, Empty];
    UnrollEight(b, InterleavedOrder);
    UnrollEight(b, RowsFirstOrder);
  }

  /** The number of empty cells, the measure every search decreases. */
  function CountEmpty(s: seq<Cell>): (n: nat)
    ensures n <= |s|
    ensures n == 0 <==> forall i :: 0 <= i < |s| ==> s[i] != Empty
  {
    if |s| == 0 then 0
    else (if s[0] == Empty then 1 else 0) + CountEmpty(s[1..])
  }

  /** Marking an empty cell removes exactly one empty cell. */
  lemma {:induction false} FillingDecrements(s: seq<Cell>, i: int, c: Cell)
    requires 0 <= i < |s| && s[i] == Empty && c != Empty
    ensures CountEmpty(s[i := c]) == CountEmpty(s) - 1
  {
    if i == 0 {
      assert s[i := c][1..] == s[1..];
    } else {
      FillingDecrements(s[1..], i - 1, c);
      assert s[i := c][1..] == s[1..][i - 1 := c];
    }
  }

  /** Python's `all(cell != " " ...)` and Rust's `is_board_full`. */
  predicate IsFull(b: Board) { forall i :: 0 <= i < 9 ==> b[i] != Empty }

  /** Appending a cell adds one to the count exactly when it is empty. */
  lemma {:induction false} CountEmptyAppend(s: seq<Cell>, c: Cell)
    ensures CountEmpty(s + [c]) == CountEmpty(s) + (if c == Empty then 1 else 0)
  {
    if |s| == 0 {
      assert s + [c] == [c];
    } else {
      CountEmptyAppend(s[1..], c);
      assert (s + [c])[1..] == s[1..] + [c];
    }
  }

  /** The empty cells before index `k`, in row-major order: the candidate
      list of every random agent and of Rust's `get_available_moves`, built
      cell by cell as that method's loops build it. */
  function EmptyCellsBefore(b: Board, k: nat): seq<Pos>
    requires k <= 9
  {
    if k == 0 then []
    else EmptyCellsBefore(b, k - 1) + (if b[k - 1] == Empty then [PosOf(k - 1)] else [])
  }

  /** The list holds exactly the empty cells before `k`. */
  lemma {:induction false} EmptyCellsBeforeMembers(b: Board, k: nat)
    requires k <= 9
    ensures forall p :: p in EmptyCellsBefore(b, k) <==> OnBoard(p) && Index(p) < k && CellAt(b, p) == Empty
  {
    if k > 0 {
      EmptyCellsBeforeMembers(b, k - 1);
      assert forall p :: OnBoard(p) && Index(p) == k - 1 ==> p == PosOf(k - 1);
    }
  }

  /** The list is in increasing index order, so no cell is listed twice. */
  lemma {:induction false} EmptyCellsBeforeSorted(b: Board, k: nat)
    requires k <= 9
    ensures forall i, j :: 0 <= i < j < |EmptyCellsBefore(b, k)| ==>
      Index(EmptyCellsBefore(b, k)[i]) < Index(EmptyCellsBefore(b, k)[j])
  {
    if k > 0 {
      EmptyCellsBeforeSorted(b, k - 1);
      EmptyCellsBeforeMembers(b, k - 1);
      var prev := EmptyCellsBefore(b, k - 1);
      assert forall i :: 0 <= i < |prev| ==> prev[i] in prev;
    }
  }

  /** There are as many entries as empty cells before `k`. */
  lemma {:induction false} EmptyCellsBeforeCount(b: Board, k: nat)
    requires k <= 9
    ensures |EmptyCellsBefore(b, k)| == CountEmpty(b[..k])
  {
    if k > 0 {
      EmptyCellsBeforeCount(b, k - 1);
      assert b[..k] == b[..k - 1] + [b[k - 1]];
      CountEmptyAppend(b[..k - 1], b[k - 1]);
    }
  }

  /** All empty cells in row-major order; empty exactly on a full board. */
  function EmptyCells(b: Board): (r: seq<Pos>)
    ensures forall p :: p in r <==> OnBoard(p) && CellAt(b, p) == Empty
    ensures forall i, j :: 0 <= i < j < |r| ==> Index(r[i]) < Index(r[j])
    ensures |r| == CountEmpty(b)
    ensures |r| == 0 <==> IsFull(b)
  {
    EmptyCellsBeforeMembers(b, 9);
    EmptyCellsBeforeSorted(b, 9);
    EmptyCellsBeforeCount(b, 9);
    assert b[..9] == b;
    EmptyCellsBefore(b, 9)
  }

  /** `random.choice` / `choose` over the free cells: the random draw is the
      parameter `pick`, and any draw selects some free cell.  Shared by the
      Python `RandomAgent`, `DatabaseAgent.get_random_move` and the Rust
      `RandomAgent`. */
  function PickEmpty(b: Board, pick: nat): (r: Option<Pos>)
    ensures r.None? <==> IsFull(b)
    ensures r.Some? ==> OnBoard(r.value) && CellAt(b, r.value) == Empty
  {
    var cells := EmptyCells(b);
    if |cells| == 0 then None
    else
      assert cells[pick % |cells|] in cells;
      Some(cells[pick % |cells|])
  }

  lemma SmallRemainder(i: nat, n: nat)
    requires i < n
    ensures i % n == i
  {}

  /** No free cell is out of reach of the random draw. */
  lemma EveryEmptyCellCanBePicked(b: Board, p: Pos)
    requires OnBoard(p) && CellAt(b, p) == Empty
    ensures exists pick: nat :: PickEmpty(b, pick) == Some(p)
  {
    var cells := EmptyCells(b);
    assert p in cells;
    var i :| 0 <= i < |cells| && cells[i] == p;
    SmallRemainder(i, |cells|);
    assert PickEmpty(b, i) == Some(cells[i]);
  }
}
