/**
 * The human-versus-human test version of the game. Its rules are the same
 * code as the AI version's (square lookup, move validation, chain-capture
 * test, win and depletion detection and the starting layout are those of
 * module Rules); what differs is the game object: a captured piece is given
 * the square (-1, -1) instead of none, a move keeps no undo record, a win
 * opens the winner announcement, and every click of a running game is
 * handled, for whichever side is to move.
 */
module Check {
  import opened Wrappers
  import opened Board
  import opened Rules
  import Lists
  import Ai
  import Engine = Fianco

  /** The row and column a captured piece is given. */
  const Sentinel: Option<int> := Some(-1)

  /**
   * The turn attributes after a move of `piece`, given the outcome w on the
   * new board and whether the move captured and the piece can capture again:
   * a win opens the winner announcement and keeps the side to move; otherwise
   * a capture that can be continued keeps the turn with the piece selected,
   * and any other move clears the selection and passes the turn.
   */
  function Concluded(w: Option<Player>, again: bool, piece: Piece, t: Engine.Turn): (r: Engine.Turn)
    ensures r.gameOver <==> t.gameOver || w.Some?
    ensures w.Some? ==>
      && r.winner == w && r.winnerName == PlayerName(w.value) && r.state == WinnerAnnounce
      && r.currentPlayer == t.currentPlayer
    ensures w.None? ==> r.winner == t.winner && r.winnerName == t.winnerName && r.state == t.state
    ensures r.currentPlayer != t.currentPlayer <==> w.None? && !again
    ensures w.None? ==>
      (r.mustContinueCapture <==> again) && r.selectedPiece == (if again then Some(piece) else None)
  {
    if w.Some? then
      t.(winner := w, gameOver := true, winnerName := PlayerName(w.value), state := WinnerAnnounce)
    else if again then
      t.(mustContinueCapture := true, selectedPiece := Some(piece))
    else
      t.(mustContinueCapture := false, selectedPiece := None, currentPlayer := t.currentPlayer.Other())
  }

  /** The test version concludes a move as the AI version does, except for the screen a win opens. */
  lemma ConcludedAsEngine(w: Option<Player>, again: bool, piece: Piece, t: Engine.Turn)
    ensures Concluded(w, again, piece, t) ==
      Engine.AfterMove(w, again, piece, t).(state := if w.Some? then WinnerAnnounce else t.state)
  {
  }

  /** One round of the capture generator's loop: the i-th piece's jumps appended to the list. */
  method AddOwnCaptures(ps: seq<Piece>, player: Player, i: nat, moves: seq<Move>) returns (moves': seq<Move>)
    requires HasSquares(ps) && i < |ps| && moves == CaptureMovesOf(ps, player, i)
    ensures moves' == CaptureMovesOf(ps, player, i + 1)
  {
    Ai.CapturesSnoc(ps, player, i);
    var found := OwnCaptures(ps, ps[i], player);
    moves' := moves + found;
  }

  /**
   * The body of the capture generator's loop for one piece: nothing for a
   * piece of the other side or one with a negative coordinate, and its
   * jumps otherwise.
   */
  method OwnCaptures(ps: seq<Piece>, piece: Piece, player: Player) returns (found: seq<Move>)
    requires piece.row.Some? && piece.col.Some?
    ensures found == CapturesBy(ps, player, piece)
  {
    found := [];
    if piece.owner == player {
      if piece.row.value < 0 || piece.col.value < 0 {
        return;
      }
      found := JumpCaptures(ps, piece);
    }
  }

  /**
   * The inner loop of the capture generator for one piece: its jumps
   * towards column +2 and then -2 that stay on the board and that move
   * validation accepts as captures.
   */
  method JumpCaptures(ps: seq<Piece>, piece: Piece) returns (found: seq<Move>)
    requires piece.row.Some? && piece.col.Some?
    ensures found == PieceCaptures(ps, piece)
  {
    var fw := Forward(piece.owner);
    var dcs := [2, -2];
    found := [];
    ghost var jumps := Ai.JumpOffsets(piece.owner);
    for k := 0 to 2
      invariant found == Ai.CapturesToward(ps, piece, jumps[..k])
    {
      var rNew, cNew := piece.row.value + fw * 2, piece.col.value + dcs[k];
      Ai.TowardSnoc(ps, piece, jumps, k, k + 1, rNew, cNew);
      if 0 <= rNew < BoardSize && 0 <= cNew < BoardSize {
        var v := IsValidMove(ps, piece, rNew, cNew);
        if v.ok && v.captured.Some? {
          found := found + [Move(piece, rNew, cNew, v.captured)];
        }
      }
    }
    assert jumps[..2] == jumps;
    Ai.JumpOffsetsCaptures(ps, piece);
  }

  class Fianco {
    var humanPlayer: Option<Player>
    var pieces: seq<Piece>
    var turn: Engine.Turn
    var errorMessage: string
    var showError: bool
    var capturedWhite: seq<Piece>
    var capturedBlack: seq<Piece>
    var playerTimes: map<Player, int>
    var statsPrinted: bool

    /** Every piece the game knows: live or captured. */
    ghost function Repr(): set<Piece>
      reads this`pieces, this`capturedWhite, this`capturedBlack
    {
      set p | p in pieces + capturedWhite + capturedBlack
    }

    /**
     * The game invariant: no piece is listed twice across the live and the
     * captured lists, every live piece has a square, and every piece's pixel
     * centre agrees with its square.
     */
    ghost predicate Valid()
      reads this`pieces, this`capturedWhite, this`capturedBlack, Repr()
    {
      && Lists.Distinct(pieces) && Lists.Distinct(capturedWhite) && Lists.Distinct(capturedBlack)
      && (forall p | p in pieces :: p !in capturedWhite && p !in capturedBlack)
      && (forall p | p in capturedWhite :: p !in capturedBlack)
      && HasSquares(pieces)
      && (forall p | p in Repr() :: p.Placed())
    }

    /** The board is as it was: same lists, every piece on the same square and pixel. */
    twostate predicate Kept()
      reads this, Repr()
    {
      && pieces == old(pieces)
      && capturedWhite == old(capturedWhite) && capturedBlack == old(capturedBlack)
      && (forall p | p in Repr() :: unchanged(p))
    }

    constructor ()
      ensures Valid()
      ensures humanPlayer == None && pieces == []
      ensures turn == Engine.Turn(Player1, false, false, None, "", Menu, None)
      ensures errorMessage == "" && !showError
      ensures capturedWhite == [] && capturedBlack == []
      ensures playerTimes == map[Player1 := 600000, Player2 := 600000]
      ensures !statsPrinted
    {
      humanPlayer := None;
      pieces := [];
      turn := Engine.Turn(Player1, false, false, None, "", Menu, None);
      errorMessage := "";
      showError := false;
      capturedWhite, capturedBlack := [], [];
      playerTimes := map[Player1 := 600000, Player2 := 600000];
      statsPrinted := false;
    }

    /** Replaces the live pieces by the 30 pieces of the starting layout, the same as the AI version's. */
    method CreateInitialPieces()
      requires Valid()
      modifies this`pieces
      ensures Valid()
      ensures |pieces| == 2 * PiecesPerSide
      ensures forall k | 0 <= k < |pieces| ::
        && fresh(pieces[k])
        && At(pieces[k], InitialSquare(k).0, InitialSquare(k).1)
        && pieces[k].owner == InitialSquare(k).2
        && pieces[k].color == PlayerColor(pieces[k].owner)
    {
      pieces := InitialPieces();
    }

    /**
     * Captures a live piece: it leaves the live list and joins the captured
     * list of its side, and is given the square (-1, -1), whose pixel centre
     * (50, 20) lies inside the window rather than at the off-board pixel.
     */
    method RemovePiece(piece: Piece)
      requires Valid() && piece in pieces
      modifies this`pieces, this`capturedWhite, this`capturedBlack, piece
      ensures Valid()
      ensures pieces == Lists.Remove(old(pieces), piece) && piece !in pieces
      ensures piece.owner == Player1 ==>
        capturedWhite == old(capturedWhite) + [piece] && capturedBlack == old(capturedBlack)
      ensures piece.owner == Player2 ==>
        capturedBlack == old(capturedBlack) + [piece] && capturedWhite == old(capturedWhite)
      ensures piece.row == Sentinel && piece.col == Sentinel
      ensures (piece.x, piece.y) == (50, 20) && (piece.x, piece.y) != OffBoardPixel
      ensures Repr() == old(Repr())
    {
      Lists.RemoveDistinct(pieces, piece);
      pieces := Lists.Remove(pieces, piece);
      if piece.owner == Player1 {
        Lists.AppendDistinct(capturedWhite, piece);
        capturedWhite := capturedWhite + [piece];
      } else {
        Lists.AppendDistinct(capturedBlack, piece);
        capturedBlack := capturedBlack + [piece];
      }
      piece.row := Sentinel;
      piece.col := Sentinel;
      piece.ResetPosition();
      assert Repr() == old(Repr());
    }

    /** Puts a piece on a square and recentres it; the lists are untouched. */
    method Place(piece: Piece, row: int, col: int)
      requires Valid()
      modifies piece
      ensures Valid()
      ensures At(piece, row, col) && piece.Placed()
    {
      piece.row := Some(row);
      piece.col := Some(col);
      piece.ResetPosition();
    }

    /** The game's lists and turn attributes, as values. */
    function Listing(): Engine.Lineup
      reads this`pieces, this`capturedWhite, this`capturedBlack, this`turn
    {
      Engine.Lineup(pieces, capturedWhite, capturedBlack, turn)
    }

    /**
     * The board effect of move m made from `before` (with `spot` the captured
     * piece's spot then): the piece stands on its destination, and a captured
     * piece that was live has left the live list for the captured list of its
     * side and stands on the square (-1, -1).
     */
    ghost predicate Moved(m: Move, before: Engine.Lineup, spot: Engine.Spot)
      reads this`pieces, this`capturedWhite, this`capturedBlack, m.piece
      reads if m.captured.Some? then {m.captured.value} else {}
    {
      var removed := m.captured.Some? && m.captured.value in before.pieces;
      && At(m.piece, m.row, m.col) && m.piece.Placed()
      && (removed ==>
            var c := m.captured.value;
            && pieces == Lists.Remove(before.pieces, c)
            && c.row == Sentinel && c.col == Sentinel && c.Placed()
            && capturedWhite == before.capturedWhite + (if c.owner == Player1 then [c] else [])
            && capturedBlack == before.capturedBlack + (if c.owner == Player2 then [c] else []))
      && (!removed ==>
            && pieces == before.pieces
            && capturedWhite == before.capturedWhite && capturedBlack == before.capturedBlack
            && (m.captured.Some? ==> Engine.SpotOf(m.captured.value) == spot))
    }

    /**
     * The whole effect of move m made from `before`: the board effect, then the
     * turn attributes `Concluded` gives for the outcome on the new board and
     * for whether the move captured and the piece can capture again.
     */
    ghost predicate Made(m: Move, before: Engine.Lineup, spot: Engine.Spot)
      reads this`pieces, this`capturedWhite, this`capturedBlack, this`turn, pieces, m.piece
      reads if m.captured.Some? then {m.captured.value} else {}
    {
      && Moved(m, before, spot) && HasSquares(pieces)
      && turn == Concluded(Outcome(pieces),
                           m.captured.Some? && HasAvailableCaptures(pieces, m.piece),
                           m.piece, before.turn)
    }

    /**
     * The last step of a move of `piece`, made after the board changed: a win
     * (baseline first, then depletion) opens the winner announcement;
     * otherwise a capture after which the piece can capture again keeps the
     * turn for it, and any other move passes the turn.
     */
    method Conclude(piece: Piece, didCapture: bool)
      requires HasSquares(pieces) && piece.row.Some? && piece.col.Some?
      modifies this`turn
      ensures turn == Concluded(Outcome(pieces), didCapture && HasAvailableCaptures(pieces, piece),
                                piece, old(turn))
      ensures old(Valid()) ==> Valid()
    {
      var w := CheckForWin(pieces);
      if w.None? {
        w := CheckForPieceDepletion(pieces);
      }
      var t := turn;
      if w.Some? {
        t := t.(winner := w, gameOver := true, winnerName := PlayerName(w.value), state := WinnerAnnounce);
      } else {
        if didCapture && HasAvailableCaptures(pieces, piece) {
          t := t.(mustContinueCapture := true, selectedPiece := Some(piece));
        } else {
          t := t.(mustContinueCapture := false, selectedPiece := None);
          if !t.mustContinueCapture {
            t := t.(currentPlayer := t.currentPlayer.Other());
          }
        }
      }
      turn := t;
    }

    /**
     * Makes move m, keeping no record to undo it: the piece goes to its
     * destination, a captured piece that is live is removed, and the move is
     * concluded on the new board.
     */
    method MakeMove(m: Move)
      requires Valid()
      requires m.captured != Some(m.piece)
      modifies this`pieces, this`capturedWhite, this`capturedBlack, this`turn,
        m.piece, if m.captured.Some? then {m.captured.value} else {}
      ensures Valid() && Made(m, old(Listing()), old(Engine.CapturedSpot(m)))
      ensures Repr() == old(Repr())
    {
      ghost var before, spot := Listing(), Engine.CapturedSpot(m);
      MoveBoard(m);
      assert Moved(m, before, spot);
      Conclude(m.piece, m.captured.Some?);
      assert Moved(m, before, spot);
    }

    /** The board part of a move: the piece goes to its destination and a live captured piece is removed. */
    method MoveBoard(m: Move)
      requires Valid()
      requires m.captured != Some(m.piece)
      modifies this`pieces, this`capturedWhite, this`capturedBlack,
        m.piece, if m.captured.Some? then {m.captured.value} else {}
      ensures Valid() && Moved(m, old(Listing()), old(Engine.CapturedSpot(m)))
      ensures Repr() == old(Repr())
    {
      var piece, captured := m.piece, m.captured;
      Place(piece, m.row, m.col);
      if captured.Some? && captured.value in pieces {
        RemovePiece(captured.value);
      }
    }

    /** Whether a click on the board is handled: a game is running and not over. */
    predicate Playing()
      reads this
    {
      turn.state == InGame && !turn.gameOver
    }

    /**
     * A left click at pixel pos in a running game, for the side to move. With
     * no selection it selects the first piece of that side whose disc was
     * hit; with a selection it acts on the board square under the click.
     */
    method HandleClick(pos: (int, int))
      requires Valid()
      requires turn.selectedPiece.Some? ==>
        turn.selectedPiece.value.row.Some? && turn.selectedPiece.value.col.Some?
      modifies this`pieces, this`capturedWhite, this`capturedBlack, this`turn,
        this`errorMessage, this`showError, Repr()
      modifies if turn.selectedPiece.Some? then {turn.selectedPiece.value} else {}
      ensures Valid()
      ensures !old(Playing()) ==>
        Kept() && turn == old(turn) && errorMessage == old(errorMessage) && showError == old(showError)
      ensures old(Playing()) && old(turn.selectedPiece).None? ==>
        && Kept() && turn == old(turn).(selectedPiece := old(Engine.HitPiece(pieces, pos, turn.currentPlayer)))
        && errorMessage == old(errorMessage) && showError == old(showError)
      ensures old(Playing()) && old(turn.selectedPiece).Some? ==>
        var (rr, cc) := Engine.MouseBoardPosition(pos);
        Clicked(old(ClickOutcome(pieces, turn.selectedPiece.value, turn.currentPlayer, rr, cc,
                                 CaptureMoves(pieces, turn.currentPlayer))),
                old(Listing()), old(errorMessage), old(showError))
    {
      if !Playing() {
        return;
      }
      if turn.selectedPiece.None? {
        var hit := Engine.HitPiece(pieces, pos, turn.currentPlayer);
        if hit.Some? {
          turn := turn.(selectedPiece := hit);
        }
        return;
      }
      var (rr, cc) := Engine.MouseBoardPosition(pos);
      ClickSquare(rr, cc);
    }

    /**
     * The effect of click decision d, made from the lists and turn attributes
     * `before` and the error message and flag shown then: reselecting and
     * deselecting change only the selection; a quiet move while a capture
     * exists and an invalid move leave the board and the turn as they were and
     * show their message; a move that is played has the effect `Made` states.
     */
    twostate predicate Clicked(d: Click, before: Engine.Lineup, message: string, shown: bool)
      reads this, Repr(), if d.Play? then {d.move.piece} else {}
      reads if d.Play? && d.move.captured.Some? then {d.move.captured.value} else {}
    {
      && (d.Reselect? ==> Kept() && turn == before.turn.(selectedPiece := Some(d.piece)) &&
                          errorMessage == message && showError == shown)
      && (d.Deselect? ==> Kept() && turn == before.turn.(selectedPiece := None) &&
                          errorMessage == message && showError == shown)
      && (d.CaptureMandatory? ==> Kept() && turn == before.turn &&
                                  errorMessage == Engine.MandatoryMessage && showError)
      && (d.InvalidMove? ==> Kept() && turn == before.turn &&
                             errorMessage == Engine.InvalidMessage && showError)
      && (d.Play? ==> Made(d.move, before, old(Engine.CapturedSpot(d.move))) &&
                      errorMessage == message && showError == shown)
    }

    /**
     * The capture moves of `player`: for each of its live pieces with
     * non-negative coordinates, the jumps towards column +2 and then -2 that
     * stay on the board and that move validation accepts as captures.
     */
    method GetAllPossibleCaptureMoves(player: Player) returns (moves: seq<Move>)
      requires HasSquares(pieces)
      ensures moves == CaptureMoves(pieces, player)
    {
      var ps := pieces;
      moves := [];
      for i := 0 to |ps|
        invariant moves == CaptureMovesOf(ps, player, i)
      {
        moves := AddOwnCaptures(ps, player, i, moves);
      }
    }

    /**
     * A click on board square (rr, cc) with a piece selected: the capture
     * moves of the side to move are listed, and the click is decided by
     * `ClickOutcome` and carried out.
     */
    method ClickSquare(rr: int, cc: int)
      requires Valid()
      requires turn.selectedPiece.Some?
      requires turn.selectedPiece.value.row.Some? && turn.selectedPiece.value.col.Some?
      modifies this`pieces, this`capturedWhite, this`capturedBlack, this`turn,
        this`errorMessage, this`showError, Repr(), turn.selectedPiece.value
      ensures Valid()
      ensures Clicked(old(ClickOutcome(pieces, turn.selectedPiece.value, turn.currentPlayer, rr, cc,
                                       CaptureMoves(pieces, turn.currentPlayer))),
                      old(Listing()), old(errorMessage), old(showError))
    {
      ghost var d0 := ClickOutcome(pieces, turn.selectedPiece.value, turn.currentPlayer, rr, cc,
                                   CaptureMoves(pieces, turn.currentPlayer));
      var selected := turn.selectedPiece.value;
      var captures := GetAllPossibleCaptureMoves(turn.currentPlayer);
      var d := ClickOutcome(pieces, selected, turn.currentPlayer, rr, cc, captures);
      assert d == d0;
      Carry(d);
    }

    /** Carries out click decision d: a new selection, an error message, or the move. */
    method Carry(d: Click)
      requires Valid()
      requires d.Play? ==> d.move.captured != Some(d.move.piece)
      requires d.Play? && d.move.captured.Some? ==> d.move.captured.value in Repr()
      modifies this`pieces, this`capturedWhite, this`capturedBlack, this`turn,
        this`errorMessage, this`showError, Repr()
      modifies if d.Play? then {d.move.piece} else {}
      ensures Valid()
      ensures Clicked(d, old(Listing()), old(errorMessage), old(showError))
    {
      ghost var before := Listing();
      match d
      case Reselect(p) =>
        turn := turn.(selectedPiece := Some(p));
      case Deselect =>
        turn := turn.(selectedPiece := None);
      case CaptureMandatory =>
        errorMessage := Engine.MandatoryMessage;
        showError := true;
      case InvalidMove =>
        errorMessage := Engine.InvalidMessage;
        showError := true;
      case Play(m) =>
        ghost var spot := Engine.CapturedSpot(m);
        MakeMove(m);
        assert Made(m, before, spot);
    }
  }
}
