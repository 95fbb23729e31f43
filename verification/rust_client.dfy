/** The console client of `CUI/cui_display.py` drawing a `BoardState` sent
    by the Rust server of `rust/tic_tac_toe_server_rust`: every `Player`
    in the response is written as its `Display` string, `null` for an
    absent winner reaches the client as `None`. */
module RustClient {
  import opened Outcomes
  import opened Grid
  import opened RustGame
  import RustSchemas
  import CuiDisplay

  /** The JSON state as the client's dictionary sees it. */
  function ClientView(s: RustSchemas.BoardState): CuiDisplay.BoardState
  {
    CuiDisplay.BoardState(
      RustSchemas.Serialize(s.board),
      match s.winner
      case None => None
      case Some(p) => Some(PlayerText(p)),
      s.gameOver,
      PlayerText(s.currentPlayer))
  }

  /** The client's grid shows exactly the server's board. */
  lemma ClientShowsRustBoard(s: RustSchemas.BoardState)
    ensures CuiDisplay.ReadBoard(CuiDisplay.Display(ClientView(s))) == Some(s.board)
  {
    RustSchemas.SerializeIsPythonRows(s.board);
    CuiDisplay.DisplayShowsBoard(ClientView(s), s.board);
  }

  /** The Rust server reports a draw as the winner `" "`, which the client
      never reads as a draw: it announces a winner named by a blank. */
  lemma RustDrawShownAsWin(s: RustSchemas.BoardState)
    ensures CuiDisplay.StatusLine(ClientView(s)) != CuiDisplay.DrawText
    ensures s.winner == Some(Empty) ==> CuiDisplay.StatusLine(ClientView(s)) == "Game Over: Player   wins!"
  {
    CuiDisplay.StatusShowsDraw(ClientView(s));
  }

  /** The winner as the Python server words it, which the client expects:
      "draw" for a drawn game, the mark otherwise. */
  function WinnerText(p: Cell): string
  {
    if p == Empty then "draw" else PlayerText(p)
  }

  /** The client's view with the draw reported as "draw". */
  function DrawAwareView(s: RustSchemas.BoardState): CuiDisplay.BoardState
  {
    ClientView(s).(winner := match s.winner case None => None case Some(p) => Some(WinnerText(p)))
  }

  /** With the draw worded as "draw", the client announces a draw exactly
      for the Rust server's draw, and still shows the same grid. */
  lemma DrawAwareViewShowsDraw(s: RustSchemas.BoardState)
    ensures CuiDisplay.StatusLine(DrawAwareView(s)) == CuiDisplay.DrawText <==> s.winner == Some(Empty)
    ensures CuiDisplay.ReadBoard(CuiDisplay.Display(DrawAwareView(s))) == Some(s.board)
  {
    CuiDisplay.StatusShowsDraw(DrawAwareView(s));
    if s.winner.Some? && s.winner.value != Empty {
      assert PlayerText(s.winner.value) != "draw";
    }
    RustSchemas.SerializeIsPythonRows(s.board);
    CuiDisplay.DisplayShowsBoard(DrawAwareView(s), s.board);
  }
}
