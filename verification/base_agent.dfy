/** `BaseAgent.check_winner` of `agents/base_agent.py`: the pure
    classification every Python agent uses on a board. */
module BaseAgent {
  import opened Outcomes
  import opened Grid

  /** Python's return values "X" / "O", "draw" and `None`. */
  datatype Verdict = Winner(mark: Cell) | Draw | Ongoing

  /** No line of the board is complete. */
  predicate NoCompleteLine(b: Board)
  {
    forall k :: 0 <= k < |InterleavedOrder| ==> !Complete(b, InterleavedOrder[k])
  }

  /** `check_winner(board)`: the mark of the first complete line in the
      order row i, column i (i = 0, 1, 2), main diagonal, anti-diagonal;
      otherwise "draw" on a full board and `None` on any other. */
  function CheckWinner(b: Board): (v: Verdict)
    ensures v.Winner? <==> FirstComplete(b, InterleavedOrder, 0).Some?
    ensures v.Winner? ==> IsMark(v.mark)
    ensures v.Winner? ==>
      var k := FirstComplete(b, InterleavedOrder, 0).value;
      v.mark == LineMark(b, InterleavedOrder[k]) && forall j :: 0 <= j < k ==> !Complete(b, InterleavedOrder[j])
    ensures v == Draw <==> NoCompleteLine(b) && IsFull(b)
    ensures v == Ongoing <==> NoCompleteLine(b) && !IsFull(b)
  {
    match FirstComplete(b, InterleavedOrder, 0)
    case Some(k) => Winner(LineMark(b, InterleavedOrder[k]))
    case None => if IsFull(b) then Draw else Ongoing
  }

  /** Row i is examined before column i, and both before any diagonal: a
      complete row 0 decides the verdict whatever else is on the board. */
  lemma RowBeforeColumn(b: Board, i: int)
    requires 0 <= i < 3 && Complete(b, Row(i))
    requires forall j :: 0 <= j < i ==> !Complete(b, Row(j)) && !Complete(b, Column(j))
    ensures CheckWinner(b) == Winner(b[3 * i])
  {
    UnrollEight(b, InterleavedOrder);
    if i == 1 {
      assert !Complete(b, Row(0)) && !Complete(b, Column(0));
    } else if i == 2 {
      assert !Complete(b, Row(0)) && !Complete(b, Column(0));
      assert !Complete(b, Row(1)) && !Complete(b, Column(1));
    }
  }

  /** The diagonals decide only when no row and no column is complete. */
  lemma DiagonalsLast(b: Board, i: int)
    requires 0 <= i < 3 && (Complete(b, Row(i)) || Complete(b, Column(i)))
    ensures FirstComplete(b, InterleavedOrder, 0).Some?
    ensures FirstComplete(b, InterleavedOrder, 0).value < 6
  {
    if i == 0 {
      assert Complete(b, InterleavedOrder[0]) || Complete(b, InterleavedOrder[1]);
    } else if i == 1 {
      assert Complete(b, InterleavedOrder[2]) || Complete(b, InterleavedOrder[3]);
    } else {
      assert Complete(b, InterleavedOrder[4]) || Complete(b, InterleavedOrder[5]);
    }
  }
}
