/**
 * The Fianco game object of the AI version of the program: the live piece
 * list, the two captured lists, the turn and end-of-game flags, and the
 * search bookkeeping the AI writes (transposition table and counters).
 * Moves are made in place and can be unmade from the record `MakeMove` returns.
 */
module Fianco {
  import opened Wrappers
  import opened Board
  import opened Rules
  import Lists

  /** The board square under a mouse position, as (row, col) with floor division. */
  function MouseBoardPosition(pos: (int, int)): (int, int) {
    var (x, y) := pos;
    ((y - BoardOffsetY) / TileSize, (x - BoardOffsetX) / TileSize)
  }

  /** Every pixel of a tile, and in particular its centre, maps back to the tile's square. */
  lemma MouseInsideTile(row: int, col: int, dx: int, dy: int)
    requires 0 <= dx < TileSize && 0 <= dy < TileSize
    ensures MouseBoardPosition((BoardOffsetX + col * TileSize + dx,
                                BoardOffsetY + row * TileSize + dy)) == (row, col)
  {
    assert (col * TileSize + dx) / TileSize == col;
    assert (row * TileSize + dy) / TileSize == row;
  }

  /** The mouse mapping inverts the piece pixel mapping on every square. */
  lemma CenterRoundTrip(row: int, col: int)
    ensures MouseBoardPosition(Center(Some(row), Some(col))) == (row, col)
  {
    MouseInsideTile(row, col, TileSize / 2, TileSize / 2);
  }

  /**
   * The seven attributes a move may change and its undo record restores:
   * the side to move, the continued-capture flag, the end-of-game flag, the
   * winner and its display name, the screen, and the selected piece.
   */
  datatype Turn = Turn(
    currentPlayer: Player, mustContinueCapture: bool, gameOver: bool,
    winner: Option<Player>, winnerName: string, state: Screen, selectedPiece: Option<Piece>)

  /**
   * The attributes after a move of `piece`, given the game's outcome w on the
   * new board and whether the move captured and the piece can capture again.
   */
  function AfterMove(w: Option<Player>, again: bool, piece: Piece, t: Turn): (r: Turn)
    ensures r.gameOver <==> t.gameOver || w.Some?
    ensures w.Some? ==> r.winner == w && r.state == GameOver && r.winnerName == PlayerName(w.value)
    ensures w.None? ==> r.winner == t.winner && r.state == t.state && r.winnerName == t.winnerName
    ensures r.currentPlayer != t.currentPlayer <==> w.None? && !again
    ensures w.None? ==>
      (r.mustContinueCapture <==> again) && r.selectedPiece == (if again then Some(piece) else None)
  {
    if w.Some? then
      t.(winner := w, gameOver := true, state := GameOver, winnerName := PlayerName(w.value))
    else if again then
      t.(mustContinueCapture := true, selectedPiece := Some(piece))
    else
      t.(mustContinueCapture := false, selectedPiece := None, currentPlayer := t.currentPlayer.Other())
  }

  /** What `MakeMove` records so that `UnmakeMove` can restore the game. */
  datatype Undo = Undo(
    piece: Piece, pieceRow: Option<int>, pieceCol: Option<int>,
    captured: Option<Piece>, capturedRow: Option<int>, capturedCol: Option<int>, turn: Turn)

  /** The radius, in pixels, of the disc a click must hit to select a piece. */
  const SelectRadius := TileSize / 2 - 5

  /**
   * Whether pixel pos lies within the selection disc around p's centre; the
   * distance is compared squared, which is exact for integer pixels since
   * the square root is monotone and exact at the radius.
   */
  predicate Near(p: Piece, pos: (int, int))
    reads p
  {
    (p.x - pos.0) * (p.x - pos.0) + (p.y - pos.1) * (p.y - pos.1) <= SelectRadius * SelectRadius
  }

  /** The first piece of `player` in ps whose disc the click hits. */
  function HitPiece(ps: seq<Piece>, pos: (int, int), player: Player): (r: Option<Piece>)
    reads ps
    ensures r.Some? ==> r.value in ps && r.value.owner == player && Near(r.value, pos)
    ensures r.None? <==> forall p | p in ps :: !(p.owner == player && Near(p, pos))
  {
    if ps == [] then None
    else if ps[0].owner == player && Near(ps[0], pos) then Some(ps[0])
    else
      var r := HitPiece(ps[1..], pos, player);
      assert forall j | 1 <= j < |ps| :: ps[j] == ps[1..][j-1];
      r
  }

  /** The message shown when a quiet move is tried while a capture exists. */
  const MandatoryMessage := "Capture is mandatory!"
  /** The message shown when move validation refuses a move. */
  const InvalidMessage := "Invalid Move!"

  /** A piece's square and pixel centre. */
  datatype Spot = Spot(row: Option<int>, col: Option<int>, x: int, y: int)

  /** A piece's spot, as a value. */
  ghost function SpotOf(p: Piece): Spot
    reads p
  {
    Spot(p.row, p.col, p.x, p.y)
  }

  /** The spot of the piece a move names as captured (a dummy when it names none). */
  ghost function CapturedSpot(m: Move): Spot
    reads if m.captured.Some? then {m.captured.value} else {}
  {
    if m.captured.Some? then SpotOf(m.captured.value) else Spot(None, None, 0, 0)
  }

  /** Every score in the table lies in [-n, n]. */
  ghost predicate ScoresWithin(table: map<int, (int, int)>, n: int) {
    forall h | h in table :: -n <= table[h].0 <= n
  }

  /** The live list, the captured lists and the turn attributes of a game, as values. */
  datatype Lineup = Lineup(
    pieces: seq<Piece>, capturedWhite: seq<Piece>, capturedBlack: seq<Piece>, turn: Turn)

  /**
   * What a search must give back, besides every piece's spot: the live
   * pieces as a multiset (their list order may change), the captured lists
   * and the turn attributes.
   */
  datatype GameShape = GameShape(
    live: multiset<Piece>, capturedWhite: seq<Piece>, capturedBlack: seq<Piece>, turn: Turn)

  class Fianco {
    var humanPlayer: Option<Player>
    var aiPlayer: Option<Player>
    var pieces: seq<Piece>
    var turn: Turn
    var errorMessage: string
    var showError: bool
    var capturedWhite: seq<Piece>
    var capturedBlack: seq<Piece>
    var playerTimes: map<Player, int>
    var ttable: map<int, (int, int)>
    var pruneCount: int
    var nodesSearched: int
    var ttAccesses: int
    var iterativeTimeLimit: int

    /** Every piece the game knows: live or captured. */
    ghost function Repr(): set<Piece>
      reads this`pieces, this`capturedWhite, this`capturedBlack
    {
      set p | p in pieces + capturedWhite + capturedBlack
    }

    /**
     * The game invariant: no piece is listed twice across the live and the
     * captured lists, every live piece has a square, and every piece's pixel
     * centre agrees with its square.
     */
    ghost predicate Valid()
      reads this`pieces, this`capturedWhite, this`capturedBlack, Repr()
    {
      && Lists.Distinct(pieces) && Lists.Distinct(capturedWhite) && Lists.Distinct(capturedBlack)
      && (forall p | p in pieces :: p !in capturedWhite && p !in capturedBlack)
      && (forall p | p in capturedWhite :: p !in capturedBlack)
      && HasSquares(pieces)
      && (forall p | p in Repr() :: p.Placed())
    }

    /** The number of pieces, live and captured. */
    function PieceCount(): (n: int)
      reads this`pieces, this`capturedWhite, this`capturedBlack
      ensures n >= 0
    {
      |pieces| + |capturedWhite| + |capturedBlack|
    }

    /** The captured list a piece of side o goes to. */
    function CapturedOf(o: Player): seq<Piece>
      reads this`capturedWhite, this`capturedBlack
    {
      if o == Player1 then capturedWhite else capturedBlack
    }

    /** Every score in the transposition table lies within the piece count. */
    ghost predicate ScoresBounded()
      reads this`ttable, this`pieces, this`capturedWhite, this`capturedBlack
    {
      ScoresWithin(ttable, PieceCount())
    }

    /** The board is as it was: same lists, every piece on the same square and pixel. */
    twostate predicate Kept()
      reads this, Repr()
    {
      && pieces == old(pieces)
      && capturedWhite == old(capturedWhite) && capturedBlack == old(capturedBlack)
      && (forall p | p in Repr() :: unchanged(p))
    }

    /** The game's shape: live multiset, captured lists and turn attributes. */
    ghost function Shape(): GameShape
      reads this`pieces, this`capturedWhite, this`capturedBlack, this`turn
    {
      GameShape(multiset(pieces), capturedWhite, capturedBlack, turn)
    }

    constructor ()
      ensures Valid() && ScoresBounded()
      ensures humanPlayer == None && aiPlayer == None && pieces == []
      ensures turn == Turn(Player1, false, false, None, "", Menu, None)
      ensures errorMessage == "" && !showError && capturedWhite == [] && capturedBlack == []
      ensures playerTimes == map[Player1 := 600000, Player2 := 600000]
      ensures ttable == map[] && pruneCount == 0 && nodesSearched == 0 && ttAccesses == 0
      ensures iterativeTimeLimit == 2000
    {
      humanPlayer, aiPlayer := None, None;
      pieces := [];
      turn := Turn(Player1, false, false, None, "", Menu, None);
      errorMessage := "";
      showError := false;
      capturedWhite, capturedBlack := [], [];
      playerTimes := map[Player1 := 600000, Player2 := 600000];
      ttable := map[];
      pruneCount, nodesSearched, ttAccesses := 0, 0, 0;
      iterativeTimeLimit := 2000;
    }

    /** Replaces the live pieces by the 30 pieces of the starting layout. */
    method CreateInitialPieces()
      requires Valid()
      modifies this`pieces
      ensures Valid()
      ensures |pieces| == 2 * PiecesPerSide
      ensures forall k | 0 <= k < |pieces| ::
        && fresh(pieces[k])
        && At(pieces[k], InitialSquare(k).0, InitialSquare(k).1)
        && pieces[k].owner == InitialSquare(k).2
        && pieces[k].color == PlayerColor(pieces[k].owner)
    {
      pieces := InitialPieces();
    }

    /**
     * Captures a live piece: it leaves the live list, joins the captured list
     * of its side and loses its square (None), which parks it off the board.
     */
    method RemovePiece(piece: Piece)
      requires Valid() && piece in pieces
      modifies this`pieces, this`capturedWhite, this`capturedBlack, piece
      ensures Valid()
      ensures pieces == Lists.Remove(old(pieces), piece) && piece !in pieces
      ensures piece.owner == Player1 ==>
        capturedWhite == old(capturedWhite) + [piece] && capturedBlack == old(capturedBlack)
      ensures piece.owner == Player2 ==>
        capturedBlack == old(capturedBlack) + [piece] && capturedWhite == old(capturedWhite)
      ensures piece.row.None? && piece.col.None? && (piece.x, piece.y) == OffBoardPixel
      ensures Repr() == old(Repr()) && PieceCount() == old(PieceCount())
    {
      Lists.RemoveDistinct(pieces, piece);
      pieces := Lists.Remove(pieces, piece);
      if piece.owner == Player1 {
        Lists.AppendDistinct(capturedWhite, piece);
        capturedWhite := capturedWhite + [piece];
      } else {
        Lists.AppendDistinct(capturedBlack, piece);
        capturedBlack := capturedBlack + [piece];
      }
      piece.row := None;
      piece.col := None;
      piece.ResetPosition();
      assert Repr() == old(Repr());
    }

    /** Puts a piece on a square and recentres it; the lists are untouched. */
    method Place(piece: Piece, row: int, col: int)
      requires Valid()
      modifies piece
      ensures Valid()
      ensures At(piece, row, col) && piece.Placed()
    {
      piece.row := Some(row);
      piece.col := Some(col);
      piece.ResetPosition();
    }

    /** Returns a captured piece, already back on its square, to the live list. */
    method Revive(c: Piece)
      requires Valid()
      requires c in CapturedOf(c.owner) && c.row.Some? && c.col.Some?
      modifies this`pieces, this`capturedWhite, this`capturedBlack
      ensures Valid()
      ensures pieces == old(pieces) + [c]
      ensures capturedWhite == (if c.owner == Player1 then Lists.Remove(old(capturedWhite), c)
                                else old(capturedWhite))
      ensures capturedBlack == (if c.owner == Player2 then Lists.Remove(old(capturedBlack), c)
                                else old(capturedBlack))
      ensures Repr() == old(Repr()) && PieceCount() == old(PieceCount())
    {
      Lists.AppendDistinct(pieces, c);
      pieces := pieces + [c];
      if c.owner == Player1 {
        Lists.RemoveDistinct(capturedWhite, c);
        capturedWhite := Lists.Remove(capturedWhite, c);
      } else {
        Lists.RemoveDistinct(capturedBlack, c);
        capturedBlack := Lists.Remove(capturedBlack, c);
      }
      assert Repr() == old(Repr());
    }

    /** The game's lists and turn attributes, as values. */
    function Listing(): Lineup
      reads this`pieces, this`capturedWhite, this`capturedBlack, this`turn
    {
      Lineup(pieces, capturedWhite, capturedBlack, turn)
    }

    /**
     * The board effect of move m made from `before` (with `spot` the captured
     * piece's spot then): the piece stands on its destination, and a captured
     * piece that was live has left the live list for the captured list of its
     * side and lost its square.
     */
    ghost predicate Moved(m: Move, before: Lineup, spot: Spot)
      reads this`pieces, this`capturedWhite, this`capturedBlack, m.piece
      reads if m.captured.Some? then {m.captured.value} else {}
    {
      var removed := m.captured.Some? && m.captured.value in before.pieces;
      && At(m.piece, m.row, m.col) && m.piece.Placed()
      && (removed ==>
            var c := m.captured.value;
            && pieces == Lists.Remove(before.pieces, c)
            && c.row.None? && c.col.None? && c.Placed()
            && capturedWhite == before.capturedWhite + (if c.owner == Player1 then [c] else [])
            && capturedBlack == before.capturedBlack + (if c.owner == Player2 then [c] else []))
      && (!removed ==>
            && pieces == before.pieces
            && capturedWhite == before.capturedWhite && capturedBlack == before.capturedBlack
            && (m.captured.Some? ==> SpotOf(m.captured.value) == spot))
    }

    /**
     * The whole effect of move m made from `before`: the board effect, then the
     * turn attributes `AfterMove` gives for the outcome on the new board (a
     * baseline win is checked before depletion) and for whether the move
     * captured and the piece can capture again.
     */
    ghost predicate Made(m: Move, before: Lineup, spot: Spot)
      reads this`pieces, this`capturedWhite, this`capturedBlack, this`turn, pieces, m.piece
      reads if m.captured.Some? then {m.captured.value} else {}
    {
      && Moved(m, before, spot) && HasSquares(pieces)
      && turn == AfterMove(Outcome(pieces),
                           m.captured.Some? && HasAvailableCaptures(pieces, m.piece),
                           m.piece, before.turn)
    }

    /**
     * The last step of a move of `piece`, made after the board changed: a win
     * (baseline first, then depletion) ends the game; otherwise a capture
     * after which the piece can capture again keeps the turn for it, and any
     * other move passes the turn.
     */
    method Conclude(piece: Piece, didCapture: bool)
      requires HasSquares(pieces) && piece.row.Some? && piece.col.Some?
      modifies this`turn
      ensures turn == AfterMove(Outcome(pieces), didCapture && HasAvailableCaptures(pieces, piece),
                                piece, old(turn))
      ensures old(Valid()) ==> Valid()
    {
      var w := CheckForWin(pieces);
      if w.None? {
        w := CheckForPieceDepletion(pieces);
      }
      var t := turn;
      if w.Some? {
        t := t.(winner := w, gameOver := true, state := GameOver, winnerName := PlayerName(w.value));
      } else {
        if didCapture && HasAvailableCaptures(pieces, piece) {
          t := t.(mustContinueCapture := true, selectedPiece := Some(piece));
        } else {
          t := t.(mustContinueCapture := false, selectedPiece := None);
          if !t.mustContinueCapture {
            t := t.(currentPlayer := t.currentPlayer.Other());
          }
        }
      }
      turn := t;
    }

    /** Makes move m and returns the record that undoes it. */
    method MakeMove(m: Move) returns (prev: Undo)
      requires Valid()
      requires m.captured != Some(m.piece)
      modifies this`pieces, this`capturedWhite, this`capturedBlack, this`turn,
        m.piece, if m.captured.Some? then {m.captured.value} else {}
      ensures Valid() && Made(m, old(Listing()), old(CapturedSpot(m)))
      ensures Repr() == old(Repr()) && PieceCount() == old(PieceCount())
      ensures prev == Undo(m.piece, old(m.piece.row), old(m.piece.col), m.captured,
        if m.captured.Some? then old(m.captured.value.row) else None,
        if m.captured.Some? then old(m.captured.value.col) else None,
        old(turn))
    {
      var piece, captured := m.piece, m.captured;
      prev := Undo(piece, piece.row, piece.col, captured,
        if captured.Some? then captured.value.row else None,
        if captured.Some? then captured.value.col else None,
        turn);
      Place(piece, m.row, m.col);
      if captured.Some? && captured.value in pieces {
        RemovePiece(captured.value);
      }
      Conclude(piece, captured.Some?);
    }

    /**
     * Undoes a move from its record: the moved piece returns to its square, a
     * captured piece returns to its square, is appended to the live list and
     * leaves its captured list, and the turn attributes take their recorded values.
     */
    method UnmakeMove(prev: Undo)
      requires Valid()
      requires prev.pieceRow.Some? && prev.pieceCol.Some?
      requires prev.captured.Some? ==>
        var c := prev.captured.value;
        c != prev.piece && prev.capturedRow.Some? && prev.capturedCol.Some? &&
        c in CapturedOf(c.owner)
      modifies this`pieces, this`capturedWhite, this`capturedBlack, this`turn,
        prev.piece, if prev.captured.Some? then {prev.captured.value} else {}
      ensures Valid()
      ensures prev.piece.row == prev.pieceRow && prev.piece.col == prev.pieceCol
      ensures prev.piece.Placed()
      ensures prev.captured.Some? ==>
        var c := prev.captured.value;
        && c.row == prev.capturedRow && c.col == prev.capturedCol && c.Placed()
        && pieces == old(pieces) + [c]
        && capturedWhite == (if c.owner == Player1 then Lists.Remove(old(capturedWhite), c)
                             else old(capturedWhite))
        && capturedBlack == (if c.owner == Player2 then Lists.Remove(old(capturedBlack), c)
                             else old(capturedBlack))
      ensures prev.captured.None? ==>
        pieces == old(pieces) && capturedWhite == old(capturedWhite) &&
        capturedBlack == old(capturedBlack)
      ensures turn == prev.turn
      ensures Repr() == old(Repr()) && PieceCount() == old(PieceCount())
    {
      Place(prev.piece, prev.pieceRow.value, prev.pieceCol.value);
      if prev.captured.Some? {
        var c := prev.captured.value;
        Place(c, prev.capturedRow.value, prev.capturedCol.value);
        Revive(c);
      }
      turn := prev.turn;
    }

    /**
     * The handler's move branch: the move is made and the error message
     * cleared (the move neither reads nor writes the message, so the message
     * is cleared first).
     */
    method Commit(m: Move)
      requires Valid()
      requires m.captured != Some(m.piece)
      modifies this`pieces, this`capturedWhite, this`capturedBlack, this`turn, this`errorMessage,
        m.piece, if m.captured.Some? then {m.captured.value} else {}
      ensures Valid() && Made(m, old(Listing()), old(CapturedSpot(m))) && errorMessage == ""
    {
      errorMessage := "";
      var _ := MakeMove(m);
    }

    /** Whether a click is handled: a running game on the human side's turn. */
    predicate Playing()
      reads this
    {
      turn.state == InGame && !turn.gameOver && humanPlayer == Some(turn.currentPlayer)
    }

    /**
     * A left click on the board in a running game on the human's turn. With no
     * selection it selects the first own piece whose disc was hit; with a
     * selection it acts on the board square under the click.
     */
    method HandleClick(pos: (int, int))
      requires Valid()
      requires turn.selectedPiece.Some? ==>
        turn.selectedPiece.value.row.Some? && turn.selectedPiece.value.col.Some?
      modifies this`pieces, this`capturedWhite, this`capturedBlack, this`turn,
        this`errorMessage, this`showError, Repr()
      modifies if turn.selectedPiece.Some? then {turn.selectedPiece.value} else {}
      ensures Valid()
      ensures !old(Playing()) ==>
        Kept() && turn == old(turn) && errorMessage == old(errorMessage) && showError == old(showError)
      ensures old(Playing()) && old(turn.selectedPiece).None? ==>
        && Kept() && turn == old(turn).(selectedPiece := old(HitPiece(pieces, pos, turn.currentPlayer)))
        && errorMessage == old(errorMessage) && showError == old(showError)
      ensures old(Playing()) && old(turn.selectedPiece).Some? ==>
        var (rr, cc) := MouseBoardPosition(pos);
        Clicked(old(ClickOutcome(pieces, turn.selectedPiece.value, turn.currentPlayer, rr, cc,
                                 CaptureMoves(pieces, turn.currentPlayer))),
                old(Listing()), old(errorMessage), old(showError))
    {
      if !Playing() {
        return;
      }
      if turn.selectedPiece.None? {
        var hit := HitPiece(pieces, pos, turn.currentPlayer);
        if hit.Some? {
          turn := turn.(selectedPiece := hit);
        }
        return;
      }
      var (rr, cc) := MouseBoardPosition(pos);
      ClickSquare(rr, cc);
    }

    /**
     * The effect of click decision d, made from the lists and turn attributes
     * `before` and the error message and flag shown then: reselecting and
     * deselecting change only the selection; a quiet move while a capture
     * exists and an invalid move leave the board and the turn as they were and
     * show their message; a move that is played has the effect `Made` states
     * and clears the message.
     */
    twostate predicate Clicked(d: Click, before: Lineup, message: string, shown: bool)
      reads this, Repr(), if d.Play? then {d.move.piece} else {}
      reads if d.Play? && d.move.captured.Some? then {d.move.captured.value} else {}
    {
      && (d.Reselect? ==> Kept() && turn == before.turn.(selectedPiece := Some(d.piece)) &&
                          errorMessage == message && showError == shown)
      && (d.Deselect? ==> Kept() && turn == before.turn.(selectedPiece := None) &&
                          errorMessage == message && showError == shown)
      && (d.CaptureMandatory? ==> Kept() && turn == before.turn &&
                                  errorMessage == MandatoryMessage && showError)
      && (d.InvalidMove? ==> Kept() && turn == before.turn &&
                             errorMessage == InvalidMessage && showError)
      && (d.Play? ==> Made(d.move, before, old(CapturedSpot(d.move))) &&
                      errorMessage == "" && showError == shown)
    }

    /**
     * A click on board square (rr, cc) with a piece selected: the click is
     * decided by `ClickOutcome` over the capture moves of the side to move and
     * carried out.
     */
    method ClickSquare(rr: int, cc: int)
      requires Valid()
      requires turn.selectedPiece.Some?
      requires turn.selectedPiece.value.row.Some? && turn.selectedPiece.value.col.Some?
      modifies this`pieces, this`capturedWhite, this`capturedBlack, this`turn,
        this`errorMessage, this`showError, Repr(), turn.selectedPiece.value
      ensures Valid()
      ensures Clicked(old(ClickOutcome(pieces, turn.selectedPiece.value, turn.currentPlayer, rr, cc,
                                       CaptureMoves(pieces, turn.currentPlayer))),
                      old(Listing()), old(errorMessage), old(showError))
    {
      var selected := turn.selectedPiece.value;
      var captures := CaptureMoves(pieces, turn.currentPlayer);
      var d := ClickOutcome(pieces, selected, turn.currentPlayer, rr, cc, captures);
      Carry(d);
    }

    /** Carries out click decision d: a new selection, an error message, or the move. */
    method Carry(d: Click)
      requires Valid()
      requires d.Play? ==> d.move.captured != Some(d.move.piece)
      requires d.Play? && d.move.captured.Some? ==> d.move.captured.value in Repr()
      modifies this`pieces, this`capturedWhite, this`capturedBlack, this`turn,
        this`errorMessage, this`showError, Repr()
      modifies if d.Play? then {d.move.piece} else {}
      ensures Valid()
      ensures Clicked(d, old(Listing()), old(errorMessage), old(showError))
    {
      ghost var before := Listing();
      match d
      case Reselect(p) =>
        turn := turn.(selectedPiece := Some(p));
      case Deselect =>
        turn := turn.(selectedPiece := None);
      case CaptureMandatory =>
        errorMessage := MandatoryMessage;
        showError := true;
      case InvalidMove =>
        errorMessage := InvalidMessage;
        showError := true;
      case Play(m) =>
        ghost var spot := CapturedSpot(m);
        Commit(m);
        assert Made(m, before, spot);
    }
  }
}
