/** `MinimaxAgent` of `agents/minimax_agent.py`: exhaustive minimax for the
    agent's mark `me`, scoring a win 100 - depth, a loss -100 + depth and a
    draw 0, and a random pick among the best-scoring free cells.  The
    source's place-and-undo on the shared board is a value update here: each
    child is searched on `b[i := mark]`, leaving `b` as it was. */
module MinimaxAgent {
  import opened Outcomes
  import opened Grid
  import opened BaseAgent

  function Max(a: int, b: int): int { if a >= b then a else b }

  function Min(a: int, b: int): int { if a <= b then a else b }

  /** `minimax(board, depth, is_maximizing)`: a decided board scores from
      `me`'s side, and an open one takes the best child for the mark placed
      on this ply (`me` when maximising, the other mark when minimising). */
  function Minimax(b: Board, depth: int, maximizing: bool, me: Cell): int
    requires IsMark(me)
    decreases CountEmpty(b), 10
  {
    match CheckWinner(b)
    case Winner(w) => if w == me then 100 - depth else -100 + depth
    case Draw => 0
    case Ongoing =>
      match BestChild(b, depth, maximizing, me, 0)
      case Some(s) => s
      case None => 0
  }

  /** The loop of one ply over the free cells at index `k` or later: the
      maximum (or minimum) of their children's scores, `None` standing for
      the starting infinity when there are no such cells. */
  function BestChild(b: Board, depth: int, maximizing: bool, me: Cell, k: nat): (r: Option<int>)
    requires IsMark(me) && k <= 9
    decreases CountEmpty(b), 9 - k
  {
    if k == 9 then None
    else
      var rest := BestChild(b, depth, maximizing, me, k + 1);
      if b[k] != Empty then rest
      else
        var mover := if maximizing then me else OtherMark(me);
        FillingDecrements(b, k, mover);
        var s := Minimax(b[k := mover], depth + 1, !maximizing, me);
        match rest
        case None => Some(s)
        case Some(v) => Some(if maximizing then Max(s, v) else Min(s, v))
  }

  /** A ply has a score exactly when some free cell is left to try. */
  lemma {:induction false} BestChildDefined(b: Board, depth: int, maximizing: bool, me: Cell, k: nat)
    requires IsMark(me) && k <= 9
    ensures BestChild(b, depth, maximizing, me, k).Some? <==> exists j :: k <= j < 9 && b[j] == Empty
    decreases 9 - k
  {
    if k < 9 {
      BestChildDefined(b, depth, maximizing, me, k + 1);
    }
  }

  /** An open board always has a free cell, so the search never returns the
      starting infinity. */
  lemma OpenBoardHasChild(b: Board, depth: int, maximizing: bool, me: Cell)
    requires IsMark(me) && CheckWinner(b) == Ongoing
    ensures BestChild(b, depth, maximizing, me, 0).Some?
  {
    var j :| 0 <= j < 9 && b[j] == Empty;
    BestChildDefined(b, depth, maximizing, me, 0);
  }

  /** Scores stay within 100 - depth of zero while the depth is small, and
      only a board `me` has already won scores the full 100 - depth: any
      later win is found at least one ply deeper. */
  lemma {:induction false} MinimaxBounds(b: Board, depth: int, maximizing: bool, me: Cell)
    requires IsMark(me) && 0 <= depth && depth + CountEmpty(b) <= 90
    ensures -100 + depth <= Minimax(b, depth, maximizing, me) <= 100 - depth
    ensures Minimax(b, depth, maximizing, me) == 100 - depth ==> CheckWinner(b) == Winner(me)
    decreases CountEmpty(b), 10
  {
    if CheckWinner(b) == Ongoing {
      BestChildBounds(b, depth, maximizing, me, 0);
    }
  }

  lemma {:induction false} BestChildBounds(b: Board, depth: int, maximizing: bool, me: Cell, k: nat)
    requires IsMark(me) && 0 <= depth && depth + CountEmpty(b) <= 90 && k <= 9
    ensures BestChild(b, depth, maximizing, me, k).Some? ==>
      -100 + depth + 1 <= BestChild(b, depth, maximizing, me, k).value <= 100 - depth - 1
    decreases CountEmpty(b), 9 - k
  {
    if k < 9 {
      BestChildBounds(b, depth, maximizing, me, k + 1);
      if b[k] == Empty {
        var mover := if maximizing then me else OtherMark(me);
        FillingDecrements(b, k, mover);
        MinimaxBounds(b[k := mover], depth + 1, !maximizing, me);
      }
    }
  }

  /** The score `get_move` gives cell `i`: `minimax(board + me at i, 0, False)`. */
  function MoveScore(b: Board, me: Cell, i: int): int
    requires IsMark(me) && 0 <= i < 9
  {
    Minimax(b[i := me], 0, false, me)
  }

  /** Marking cell `i` completes a line for `me` (as the scan reports it). */
  predicate WinsAt(b: Board, me: Cell, i: int)
    requires 0 <= i < 9
  {
    CheckWinner(b[i := me]) == Winner(me)
  }

  /** A move scores the full 100 exactly when it wins on the spot. */
  lemma ScoreHundredIffImmediateWin(b: Board, me: Cell, i: int)
    requires IsMark(me) && 0 <= i < 9
    ensures -100 <= MoveScore(b, me, i) <= 100
    ensures MoveScore(b, me, i) == 100 <==> WinsAt(b, me, i)
  {
    MinimaxBounds(b[i := me], 0, false, me);
  }

  /** The values `f(0), ..., f(n - 1)` in order. */
  function Tabulate(f: nat --> int, n: nat): (r: seq<int>)
    requires forall i: nat :: i < n ==> f.requires(i)
    ensures |r| == n
  {
    if n == 0 then [] else Tabulate(f, n - 1) + [f(n - 1)]
  }

  /** Entry `i` of a tabulation is `f(i)`. */
  lemma {:induction false} TabulateAt(f: nat --> int, n: nat, i: nat)
    requires forall i: nat :: i < n ==> f.requires(i)
    requires i < n
    ensures Tabulate(f, n)[i] == f(i)
  {
    if i < n - 1 {
      TabulateAt(f, n - 1, i);
    }
  }

  /** The scores `get_move` computes, cell by cell in row-major order (the
      scores of occupied cells are never consulted). */
  function MoveScores(b: Board, me: Cell): (r: seq<int>)
    requires IsMark(me)
    ensures |r| == 9
  {
    Tabulate((i: nat) requires i < 9 => MoveScore(b, me, i), 9)
  }

  /** Entry `i` of `MoveScores` is the score of cell `i`. */
  lemma MoveScoresAt(b: Board, me: Cell, i: nat)
    requires IsMark(me) && i < 9
    ensures MoveScores(b, me)[i] == MoveScore(b, me, i)
  {
    TabulateAt((i: nat) requires i < 9 => MoveScore(b, me, i), 9, i);
  }

  /** The best of `score` over the free cells below index `n`, `None` when
      there are none: `best_score` of `get_move` after `n` cells. */
  function PrefixBest(b: Board, score: seq<int>, n: nat): (r: Option<int>)
    requires |score| == 9 && n <= 9
    ensures r.Some? <==> exists i :: 0 <= i < n && b[i] == Empty
    ensures r.Some? ==> forall i :: 0 <= i < n && b[i] == Empty ==> score[i] <= r.value
    ensures r.Some? ==> exists i :: 0 <= i < n && b[i] == Empty && score[i] == r.value
  {
    if n == 0 then None
    else
      var rest := PrefixBest(b, score, n - 1);
      if b[n - 1] != Empty then rest
      else
        match rest
        case None => Some(score[n - 1])
        case Some(v) => Some(Max(score[n - 1], v))
  }

  /** The free cells below index `n` whose score is `s`, in row-major order. */
  function CellsScoring(b: Board, score: seq<int>, n: nat, s: int): (r: seq<Pos>)
    requires |score| == 9 && n <= 9
    ensures forall p :: p in r <==>
      OnBoard(p) && Index(p) < n && CellAt(b, p) == Empty && score[Index(p)] == s
    ensures forall i, j :: 0 <= i < j < |r| ==> Index(r[i]) < Index(r[j])
  {
    if n == 0 then []
    else
      var rest := CellsScoring(b, score, n - 1, s);
      assert forall p :: OnBoard(p) && Index(p) == n - 1 ==> p == PosOf(n - 1);
      if b[n - 1] == Empty && score[n - 1] == s then rest + [PosOf(n - 1)] else rest
  }

  /** No cell is in `CellsScoring` for a score no free cell reaches. */
  lemma {:induction false} NoneScoring(b: Board, score: seq<int>, n: nat, s: int)
    requires |score| == 9 && n <= 9
    requires forall i :: 0 <= i < n && b[i] == Empty ==> score[i] != s
    ensures CellsScoring(b, score, n, s) == []
  {
    if n > 0 {
      NoneScoring(b, score, n - 1, s);
    }
  }

  /** One step of the scan over a free cell `k`: a strictly better score
      restarts the tie list, an equal score joins it, a worse one is dropped. */
  lemma ConsiderFree(b: Board, score: seq<int>, k: nat, best: Option<int>, moves: seq<Pos>)
    requires |score| == 9 && k < 9 && b[k] == Empty
    requires best == PrefixBest(b, score, k)
    requires best.None? ==> moves == []
    requires best.Some? ==> moves == CellsScoring(b, score, k, best.value)
    ensures best.None? || score[k] > best.value ==>
      && PrefixBest(b, score, k + 1) == Some(score[k])
      && CellsScoring(b, score, k + 1, score[k]) == [PosOf(k)]
    ensures best.Some? && score[k] == best.value ==>
      && PrefixBest(b, score, k + 1) == best
      && CellsScoring(b, score, k + 1, best.value) == moves + [PosOf(k)]
    ensures best.Some? && score[k] < best.value ==>
      && PrefixBest(b, score, k + 1) == best
      && CellsScoring(b, score, k + 1, best.value) == moves
  {
    if best.None? || score[k] > best.value {
      NoneScoring(b, score, k, score[k]);
    }
  }

  /** An occupied cell changes neither the best score nor the tie list. */
  lemma SkipOccupied(b: Board, score: seq<int>, k: nat, s: int)
    requires |score| == 9 && k < 9 && b[k] != Empty
    ensures PrefixBest(b, score, k + 1) == PrefixBest(b, score, k)
    ensures CellsScoring(b, score, k + 1, s) == CellsScoring(b, score, k, s)
  {}

  /** `best_moves` after the whole board: every free cell of maximal score. */
  function Top(b: Board, score: seq<int>): (r: seq<Pos>)
    requires |score| == 9
    ensures |r| == 0 <==> IsFull(b)
    ensures forall p :: p in r <==>
      && OnBoard(p) && CellAt(b, p) == Empty
      && forall i :: 0 <= i < 9 && b[i] == Empty ==> score[i] <= score[Index(p)]
  {
    match PrefixBest(b, score, 9)
    case None => []
    case Some(m) =>
      var r := CellsScoring(b, score, 9, m);
      var i :| 0 <= i < 9 && b[i] == Empty && score[i] == m;
      assert PosOf(i) in r;
      r
  }

  /** The tie list of `get_move`: the free cells of best minimax score. */
  function TopMoves(b: Board, me: Cell): seq<Pos>
    requires IsMark(me)
  {
    Top(b, MoveScores(b, me))
  }

  /** The body of `get_move`'s loop for a free cell: place `me`, score the
      board with `minimax(board, 0, False)`, and undo the placement. */
  method TryCell(b: Board, me: Cell, k: nat) returns (score: int, after: Board)
    requires IsMark(me) && k < 9 && b[k] == Empty
    ensures after == b
    ensures score == MoveScore(b, me, k)
  {
    after := b[k := me];
    score := Minimax(after, 0, false, me);
    after := after[k := Empty];
  }

  /** `get_move(board)`: tries every free cell in row-major order, placing
      `me`, scoring with `minimax(board, 0, False)` and undoing the
      placement; keeps the cells of strictly best score so far, and returns
      the one the random draw `pick` selects, or `None` on a full board.
      `after` is the board once the loop is done. */
  method GetMove(board: Board, me: Cell, pick: nat) returns (move: Option<Pos>, after: Board)
    requires IsMark(me)
    ensures after == board
    ensures move.None? <==> IsFull(board)
    ensures move.Some? ==> OnBoard(move.value) && CellAt(board, move.value) == Empty
    ensures move.Some? ==> forall i :: 0 <= i < 9 && board[i] == Empty ==>
      MoveScore(board, me, i) <= MoveScore(board, me, Index(move.value))
    ensures move.Some? ==> move.value == TopMoves(board, me)[pick % |TopMoves(board, me)|]
  {
    ghost var scores := MoveScores(board, me);
    var b := board;
    var bestScore: Option<int> := None;
    var bestMoves: seq<Pos> := [];
    var k := 0;
    while k < 9
      invariant 0 <= k <= 9
      invariant b == board
      invariant bestScore == PrefixBest(board, scores, k)
      invariant bestScore.None? ==> bestMoves == []
      invariant bestScore.Some? ==> bestMoves == CellsScoring(board, scores, k, bestScore.value)
    {
      if b[k] == Empty {
        var score;
        score, b := TryCell(b, me, k);
        MoveScoresAt(board, me, k);
        ConsiderFree(board, scores, k, bestScore, bestMoves);
        if bestScore.None? || score > bestScore.value {
          bestScore := Some(score);
          bestMoves := [PosOf(k)];
        } else if score == bestScore.value {
          bestMoves := bestMoves + [PosOf(k)];
        }
      } else if bestScore.Some? {
        SkipOccupied(board, scores, k, bestScore.value);
      } else {
        SkipOccupied(board, scores, k, 0);
      }
      k := k + 1;
    }
    assert bestMoves == TopMoves(board, me);
    if |bestMoves| == 0 {
      move := None;
    } else {
      move := Some(bestMoves[pick % |bestMoves|]);
      assert move.value in bestMoves;
      TopMoveIsBest(board, me, move.value);
    }
    after := b;
  }

  /** A cell of `TopMoves` scores at least as well as every free cell, and
      wins on the spot whenever some free cell does. */
  lemma TopMoveIsBest(b: Board, me: Cell, p: Pos)
    requires IsMark(me) && p in TopMoves(b, me)
    ensures OnBoard(p) && CellAt(b, p) == Empty
    ensures forall i :: 0 <= i < 9 && b[i] == Empty ==> MoveScore(b, me, i) <= MoveScore(b, me, Index(p))
    ensures (exists i :: 0 <= i < 9 && b[i] == Empty && WinsAt(b, me, i)) ==> WinsAt(b, me, Index(p))
  {
    forall i | 0 <= i < 9
      ensures MoveScores(b, me)[i] == MoveScore(b, me, i)
    {
      MoveScoresAt(b, me, i);
    }
    if i :| 0 <= i < 9 && b[i] == Empty && WinsAt(b, me, i) {
      ScoreHundredIffImmediateWin(b, me, i);
      ScoreHundredIffImmediateWin(b, me, Index(p));
    }
  }

  /** Every best-scoring free cell is the answer for some random draw. */
  lemma EveryTopMoveCanBeChosen(b: Board, me: Cell, p: Pos)
    requires IsMark(me) && p in TopMoves(b, me)
    ensures exists pick: nat :: TopMoves(b, me)[pick % |TopMoves(b, me)|] == p
  {
    var top := TopMoves(b, me);
    var i :| 0 <= i < |top| && top[i] == p;
    SmallRemainder(i, |top|);
  }
}
