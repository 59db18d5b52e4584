/**
 * The read-only rules of Fianco, as the game class queries them over its
 * list of live pieces: square lookup, move validation, chain-capture test,
 * win and depletion detection, the capture-move list, the initial layout and
 * the decision taken on a destination click.
 */
module Rules {
  import opened Wrappers
  import opened Board
  import Lists

  /** The screen the game shows. */
  datatype Screen = Menu | InGame | WinnerAnnounce | GameOver

  /** The display name of a side, as the winner banner shows it. */
  function PlayerName(p: Player): string {
    if p == Player1 then "White" else "Black"
  }

  function PlayerColor(p: Player): Color {
    if p == Player1 then White else Black
  }

  function Abs(n: int): nat {
    if n < 0 then -n else n
  }

  /** Row direction in which a side advances. */
  function Forward(owner: Player): int {
    if owner == Player1 then 1 else -1
  }

  /** The baseline a side must reach to win: the far row. */
  function TargetRow(owner: Player): int {
    if owner == Player1 then BoardSize - 1 else 0
  }

  predicate InBounds(r: int, c: int) {
    0 <= r < BoardSize && 0 <= c < BoardSize
  }

  /** Every live piece has a square. */
  predicate HasSquares(ps: seq<Piece>)
    reads ps
  {
    forall p | p in ps :: p.row.Some? && p.col.Some?
  }

  predicate At(p: Piece, r: int, c: int)
    reads p
  {
    p.row == Some(r) && p.col == Some(c)
  }

  /** No piece of ps stands on (r, c). */
  predicate Empty(ps: seq<Piece>, r: int, c: int)
    reads ps
  {
    forall p | p in ps :: p.row != Some(r) || p.col != Some(c)
  }

  /** The first piece on (row, col), if any. */
  function PieceAt(ps: seq<Piece>, row: int, col: int): (r: Option<Piece>)
    reads ps
    ensures r.Some? ==> r.value in ps && At(r.value, row, col)
    ensures r.None? <==> Empty(ps, row, col)
  {
    if ps == [] then None
    else if ps[0].row == Some(row) && ps[0].col == Some(col) then Some(ps[0])
    else PieceAt(ps[1..], row, col)
  }

  /** One step forward or one step sideways. */
  predicate IsStep(owner: Player, dr: int, dc: int) {
    (dr == Forward(owner) && dc == 0) || (dr == 0 && Abs(dc) == 1)
  }

  /** Two rows forward and two columns sideways. */
  predicate IsJump(owner: Player, dr: int, dc: int) {
    dr == 2 * Forward(owner) && Abs(dc) == 2
  }

  /** The verdict on a move: accepted or not, and the piece it jumps over. */
  datatype Verdict = Verdict(ok: bool, captured: Option<Piece>)

  /**
   * Whether `piece` may move to (r, c). The destination must differ from the
   * origin, be on the board and be empty; a one-row step backward is refused;
   * a forward or sideways step is accepted without capture; a two-row forward
   * diagonal jump is accepted when the jumped square holds an enemy piece,
   * which is then the captured piece.
   */
  function IsValidMove(ps: seq<Piece>, piece: Piece, r: int, c: int): (v: Verdict)
    requires piece.row.Some? && piece.col.Some?
    reads ps, piece
    ensures v.ok ==> InBounds(r, c) && Empty(ps, r, c)
    ensures v.ok && v.captured.None? ==>
      IsStep(piece.owner, r - piece.row.value, c - piece.col.value)
    ensures v.captured.Some? ==>
      && v.ok
      && IsJump(piece.owner, r - piece.row.value, c - piece.col.value)
      && v.captured.value in ps
      && v.captured.value.owner != piece.owner
      && At(v.captured.value, piece.row.value + Forward(piece.owner),
            piece.col.value + (c - piece.col.value) / 2)
    ensures !v.ok ==> v.captured.None?
    ensures (InBounds(r, c) && Empty(ps, r, c) &&
             IsStep(piece.owner, r - piece.row.value, c - piece.col.value)) ==>
      v == Verdict(true, None)
    ensures
      var mid := PieceAt(ps, piece.row.value + Forward(piece.owner),
                         piece.col.value + (c - piece.col.value) / 2);
      (InBounds(r, c) && Empty(ps, r, c) &&
       IsJump(piece.owner, r - piece.row.value, c - piece.col.value) &&
       mid.Some? && mid.value.owner != piece.owner) ==>
      v == Verdict(true, mid)
  {
    var row, col := piece.row.value, piece.col.value;
    if row == r && col == c then Verdict(false, None)
    else if r < 0 || r >= BoardSize || c < 0 || c >= BoardSize then Verdict(false, None)
    else if PieceAt(ps, r, c).Some? then Verdict(false, None)
    else
      var fw := Forward(piece.owner);
      var dr, dc := r - row, c - col;
      if dr == -fw then Verdict(false, None)
      else if dr == fw && dc == 0 then Verdict(true, None)
      else if dr == 0 && Abs(dc) == 1 then Verdict(true, None)
      else if dr == fw * 2 && Abs(dc) == 2 then
        var mid := PieceAt(ps, row + fw, col + dc / 2);
        if mid.Some? && mid.value.owner != piece.owner then Verdict(true, mid)
        else Verdict(false, None)
      else Verdict(false, None)
  }

  /** One iteration of the chain-capture scan: the jump towards column offset dc. */
  predicate CaptureAvailable(ps: seq<Piece>, piece: Piece, dc: int)
    requires piece.row.Some? && piece.col.Some?
    reads ps, piece
  {
    var fw := Forward(piece.owner);
    var nr, nc := piece.row.value + fw * 2, piece.col.value + dc;
    && 0 <= nr < BoardSize && 0 <= nc < BoardSize
    && PieceAt(ps, nr, nc).None?
    && var mid := PieceAt(ps, piece.row.value + fw, piece.col.value + dc / 2);
       mid.Some? && mid.value.owner != piece.owner
  }

  /**
   * Whether `piece` can capture from where it stands: exactly when move
   * validation accepts one of its two forward jumps as a capture.
   */
  function HasAvailableCaptures(ps: seq<Piece>, piece: Piece): (b: bool)
    requires piece.row.Some? && piece.col.Some?
    reads ps, piece
    ensures var r := piece.row.value + 2 * Forward(piece.owner);
      b <==> IsValidMove(ps, piece, r, piece.col.value - 2).captured.Some? ||
             IsValidMove(ps, piece, r, piece.col.value + 2).captured.Some?
  {
    CaptureAvailable(ps, piece, -2) || CaptureAvailable(ps, piece, 2)
  }

  /** The piece stands on the baseline its side is heading for. */
  predicate ReachedTarget(p: Piece)
    reads p
  {
    p.row == Some(TargetRow(p.owner))
  }

  /** The owner of the first piece, in list order, that stands on its target baseline. */
  function CheckForWin(ps: seq<Piece>): (w: Option<Player>)
    reads ps
  {
    if ps == [] then None
    else if ps[0].owner == Player1 && ps[0].row == Some(BoardSize - 1) then Some(Player1)
    else if ps[0].owner == Player2 && ps[0].row == Some(0) then Some(Player2)
    else CheckForWin(ps[1..])
  }

  /**
   * The baseline check finds a winner exactly when some piece stands on its
   * target baseline, and then it names the side of the first such piece.
   */
  lemma {:induction false} CheckForWinFirst(ps: seq<Piece>)
    ensures CheckForWin(ps).None? <==> forall p | p in ps :: !ReachedTarget(p)
    ensures CheckForWin(ps).Some? ==> exists i | 0 <= i < |ps| ::
      && ps[i].owner == CheckForWin(ps).value && ReachedTarget(ps[i])
      && forall j | 0 <= j < i :: !ReachedTarget(ps[j])
  {
    if ps != [] {
      if ReachedTarget(ps[0]) {
        assert ps[0] in ps;
      } else {
        CheckForWinFirst(ps[1..]);
        assert forall j | 1 <= j < |ps| :: ps[j] == ps[1..][j - 1];
        assert ps == [ps[0]] + ps[1..];
      }
    }
  }

  /** The pieces of ps owned by o, in order. */
  function OwnedBy(ps: seq<Piece>, o: Player): (r: seq<Piece>)
  {
    if ps == [] then []
    else (if ps[0].owner == o then [ps[0]] else []) + OwnedBy(ps[1..], o)
  }

  /** The pieces OwnedBy keeps are exactly the pieces of ps owned by o. */
  lemma {:induction false} OwnedByExactly(ps: seq<Piece>, o: Player)
    ensures forall p | p in OwnedBy(ps, o) :: p in ps && p.owner == o
    ensures forall p | p in ps && p.owner == o :: p in OwnedBy(ps, o)
  {
    if ps != [] {
      OwnedByExactly(ps[1..], o);
      assert ps == [ps[0]] + ps[1..];
    }
  }

  /** The side that wins because the other side has no piece left, Player1 being checked first. */
  function CheckForPieceDepletion(ps: seq<Piece>): (w: Option<Player>)
  {
    var p1, p2 := OwnedBy(ps, Player1), OwnedBy(ps, Player2);
    if p1 == [] then Some(Player2)
    else if p2 == [] then Some(Player1)
    else None
  }

  /**
   * Depletion: Player2 wins when Player1 has no piece, Player1 wins when it
   * has one and Player2 has none, and nobody wins while both have pieces.
   */
  lemma DepletionWinner(ps: seq<Piece>)
    ensures CheckForPieceDepletion(ps) == Some(Player2) <==> forall p | p in ps :: p.owner != Player1
    ensures CheckForPieceDepletion(ps) == Some(Player1) <==>
      (exists p | p in ps :: p.owner == Player1) && forall p | p in ps :: p.owner != Player2
    ensures CheckForPieceDepletion(ps).None? <==>
      (exists p | p in ps :: p.owner == Player1) && (exists p | p in ps :: p.owner == Player2)
  {
    var p1, p2 := OwnedBy(ps, Player1), OwnedBy(ps, Player2);
    OwnedByExactly(ps, Player1);
    OwnedByExactly(ps, Player2);
    if p1 != [] {
      assert p1[0] in p1;
    }
    if p2 != [] {
      assert p2[0] in p2;
    }
  }

  /** The result of the end-of-move check: a win by baseline first, then by depletion. */
  function Outcome(ps: seq<Piece>): (w: Option<Player>)
    reads ps
  {
    var w := CheckForWin(ps);
    if w.Some? then w else CheckForPieceDepletion(ps)
  }

  /**
   * The end-of-move check declares no winner exactly when no piece stands on
   * its target baseline and both sides have pieces, and a piece on its
   * baseline wins over depletion.
   */
  lemma OutcomeWinner(ps: seq<Piece>)
    ensures Outcome(ps).None? <==>
      && (forall p | p in ps :: !ReachedTarget(p))
      && (exists p | p in ps :: p.owner == Player1)
      && (exists p | p in ps :: p.owner == Player2)
    ensures (exists p | p in ps :: ReachedTarget(p)) ==> Outcome(ps).Some? && Outcome(ps) == CheckForWin(ps)
  {
    CheckForWinFirst(ps);
    DepletionWinner(ps);
  }

  /** A move: the moving piece, its destination and the piece it captures, if any. */
  datatype Move = Move(piece: Piece, row: int, col: int, captured: Option<Piece>)

  /** The move generators skip a piece with a negative coordinate. */
  predicate NonNegative(p: Piece)
    requires p.row.Some? && p.col.Some?
    reads p
  {
    p.row.value >= 0 && p.col.value >= 0
  }

  /**
   * The reference notion of a legal move of `player`: made by one of its live
   * pieces with non-negative coordinates, to a square on the board, and
   * accepted by move validation with exactly the captured piece the move names.
   */
  ghost predicate LegalFor(ps: seq<Piece>, player: Player, m: Move)
    requires HasSquares(ps)
    reads ps
  {
    && m.piece in ps
    && m.piece.owner == player
    && NonNegative(m.piece)
    && InBounds(m.row, m.col)
    && IsValidMove(ps, m.piece, m.row, m.col) == Verdict(true, m.captured)
  }

  /** The capture candidate towards (r, c), kept when validation accepts it as a capture. */
  function CaptureTo(ps: seq<Piece>, piece: Piece, r: int, c: int): seq<Move>
    requires piece.row.Some? && piece.col.Some?
    reads ps, piece
  {
    if InBounds(r, c) then
      var v := IsValidMove(ps, piece, r, c);
      if v.ok && v.captured.Some? then [Move(piece, r, c, v.captured)] else []
    else []
  }

  /** The capture moves of one piece: the jump to column +2 first, then to column -2. */
  function PieceCaptures(ps: seq<Piece>, piece: Piece): seq<Move>
    requires piece.row.Some? && piece.col.Some?
    reads ps, piece
  {
    var r := piece.row.value + 2 * Forward(piece.owner);
    CaptureTo(ps, piece, r, piece.col.value + 2) + CaptureTo(ps, piece, r, piece.col.value - 2)
  }

  /** What piece p adds to the capture list of `player`: its captures when it is one of its pieces with non-negative coordinates. */
  function CapturesBy(ps: seq<Piece>, player: Player, p: Piece): seq<Move>
    requires p.row.Some? && p.col.Some?
    reads ps, p
  {
    if p.owner == player && NonNegative(p) then PieceCaptures(ps, p) else []
  }

  /** The capture moves of `player` found among the first n pieces of ps. */
  function CaptureMovesOf(ps: seq<Piece>, player: Player, n: nat): seq<Move>
    requires HasSquares(ps) && n <= |ps|
    reads ps
  {
    if n == 0 then [] else CaptureMovesOf(ps, player, n - 1) + CapturesBy(ps, player, ps[n - 1])
  }

  /** All capture moves of `player`, piece by piece in list order. */
  function CaptureMoves(ps: seq<Piece>, player: Player): seq<Move>
    requires HasSquares(ps)
    reads ps
  {
    CaptureMovesOf(ps, player, |ps|)
  }

  /** A capture of one piece is exactly one of its two listed jumps. */
  lemma PieceCapturesExactly(ps: seq<Piece>, piece: Piece, m: Move)
    requires piece.row.Some? && piece.col.Some?
    ensures m in PieceCaptures(ps, piece) <==>
      && m.piece == piece && InBounds(m.row, m.col) && m.captured.Some?
      && IsValidMove(ps, piece, m.row, m.col) == Verdict(true, m.captured)
  {
    var r := piece.row.value + 2 * Forward(piece.owner);
    if m.piece == piece && InBounds(m.row, m.col) && m.captured.Some? &&
       IsValidMove(ps, piece, m.row, m.col) == Verdict(true, m.captured) {
      assert m.row == r;
      assert m.col == piece.col.value + 2 || m.col == piece.col.value - 2;
    }
  }

  /** What one piece adds to the capture list are exactly its legal captures. */
  lemma OwnCapturesExactly(ps: seq<Piece>, player: Player, p: Piece, m: Move)
    requires HasSquares(ps) && p in ps
    ensures m in CapturesBy(ps, player, p) <==> m.piece == p && LegalFor(ps, player, m) && m.captured.Some?
  {
    if p.owner == player && NonNegative(p) {
      PieceCapturesExactly(ps, p, m);
    }
  }

  /** The moves a piece adds to the capture list are moves of that piece. */
  lemma CapturesByPiece(ps: seq<Piece>, player: Player, p: Piece, m: Move)
    requires p.row.Some? && p.col.Some? && m in CapturesBy(ps, player, p)
    ensures m.piece == p
  {
    var r := p.row.value + 2 * Forward(p.owner);
    assert m in CaptureTo(ps, p, r, p.col.value + 2) || m in CaptureTo(ps, p, r, p.col.value - 2);
  }

  /**
   * The capture list of the first n pieces holds exactly the moves that a
   * piece among them adds by itself.
   */
  lemma {:induction false} CaptureMovesOfBy(ps: seq<Piece>, player: Player, n: nat, m: Move)
    requires HasSquares(ps) && n <= |ps|
    ensures m in CaptureMovesOf(ps, player, n) <==>
      m.piece in ps[..n] && m.piece in ps && m in CapturesBy(ps, player, m.piece)
  {
    if n > 0 {
      var p := ps[n - 1];
      assert CaptureMovesOf(ps, player, n) == CaptureMovesOf(ps, player, n - 1) + CapturesBy(ps, player, p);
      PrefixMember(ps, n, m.piece);
      CaptureMovesOfBy(ps, player, n - 1, m);
      if m in CapturesBy(ps, player, p) {
        CapturesByPiece(ps, player, p, m);
      }
    }
  }

  /** The capture list of the first n pieces holds exactly the legal captures by those pieces. */
  lemma CaptureMovesOfExactly(ps: seq<Piece>, player: Player, n: nat, m: Move)
    requires HasSquares(ps) && n <= |ps|
    ensures m in CaptureMovesOf(ps, player, n) <==>
      m.piece in ps[..n] && LegalFor(ps, player, m) && m.captured.Some?
  {
    CaptureMovesOfBy(ps, player, n, m);
    if m.piece in ps[..n] {
      OwnCapturesExactly(ps, player, m.piece, m);
    }
  }

  /** An element of the first n elements is one of the first n - 1 or the n-th. */
  lemma PrefixMember<T>(s: seq<T>, n: nat, x: T)
    requires 0 < n <= |s|
    ensures x in s[..n] <==> x in s[..n - 1] || x == s[n - 1]
  {
    assert s[..n] == s[..n - 1] + [s[n - 1]];
  }

  /**
   * The capture list holds exactly the legal captures of `player`: moves by its
   * live pieces with non-negative coordinates, on the board, accepted by move
   * validation and naming the captured piece.
   */
  lemma CaptureMovesExactly(ps: seq<Piece>, player: Player, m: Move)
    requires HasSquares(ps)
    ensures m in CaptureMoves(ps, player) <==> LegalFor(ps, player, m) && m.captured.Some?
  {
    CaptureMovesOfExactly(ps, player, |ps|, m);
    assert ps[..|ps|] == ps;
  }

  /**
   * The chain-capture test agrees with the capture list: a live piece can
   * capture again exactly when the capture list of its side holds a move by it.
   */
  lemma HasAvailableCapturesInCaptureMoves(ps: seq<Piece>, p: Piece)
    requires HasSquares(ps) && p in ps && NonNegative(p)
    ensures HasAvailableCaptures(ps, p) <==>
      exists m | m in CaptureMoves(ps, p.owner) :: m.piece == p
  {
    if HasAvailableCaptures(ps, p) {
      AvailableCaptureListed(ps, p);
    }
    if exists m | m in CaptureMoves(ps, p.owner) :: m.piece == p {
      var m :| m in CaptureMoves(ps, p.owner) && m.piece == p;
      ListedCaptureAvailable(ps, p, m);
    }
  }

  /** A capture the chain-capture test finds is in the capture list. */
  lemma AvailableCaptureListed(ps: seq<Piece>, p: Piece)
    requires HasSquares(ps) && p in ps && NonNegative(p) && HasAvailableCaptures(ps, p)
    ensures exists m | m in CaptureMoves(ps, p.owner) :: m.piece == p
  {
    var r := p.row.value + 2 * Forward(p.owner);
    var c := if IsValidMove(ps, p, r, p.col.value + 2).captured.Some? then p.col.value + 2 else p.col.value - 2;
    var v := IsValidMove(ps, p, r, c);
    assert v.ok && v.captured.Some?;
    var m := Move(p, r, c, v.captured);
    assert LegalFor(ps, p.owner, m);
    CaptureMovesExactly(ps, p.owner, m);
  }

  /** A move of the capture list by a piece is one the chain-capture test finds. */
  lemma ListedCaptureAvailable(ps: seq<Piece>, p: Piece, m: Move)
    requires HasSquares(ps) && p in ps && m in CaptureMoves(ps, p.owner) && m.piece == p
    ensures HasAvailableCaptures(ps, p)
  {
    CaptureMovesExactly(ps, p.owner, m);
    assert m.row == p.row.value + 2 * Forward(p.owner);
    assert m.col == p.col.value - 2 || m.col == p.col.value + 2;
  }

  /** The number of pieces each side starts with: a full back row and two 3-piece diagonals. */
  const PiecesPerSide: int := BoardSize + 6

  /**
   * The square and owner of the k-th piece created at reset: Player1's back
   * row in column order, then its wedge pieces (i, i) and (i, 8 - i) for
   * i = 1, 2, 3; then the same for Player2 mirrored onto rows 8, 7, 6, 5.
   */
  function InitialSquare(k: int): (int, int, Player)
    requires 0 <= k < 2 * PiecesPerSide
  {
    if k < BoardSize then (0, k, Player1)
    else if k < PiecesPerSide then
      var i := (k - BoardSize) / 2 + 1;
      (i, if (k - BoardSize) % 2 == 0 then i else BoardSize - 1 - i, Player1)
    else if k < PiecesPerSide + BoardSize then (BoardSize - 1, k - PiecesPerSide, Player2)
    else
      var i := (k - PiecesPerSide - BoardSize) / 2 + 1;
      (BoardSize - 1 - i,
       if (k - PiecesPerSide - BoardSize) % 2 == 0 then i else BoardSize - 1 - i,
       Player2)
  }

  /**
   * The starting layout: 15 pieces per side, the first 15 Player1's, every
   * piece on the board, Player2's pieces the row-mirror of Player1's, and no
   * two pieces on one square.
   */
  lemma InitialLayout()
    ensures forall k | 0 <= k < 2 * PiecesPerSide ::
      && InBounds(InitialSquare(k).0, InitialSquare(k).1)
      && InitialSquare(k).2 == (if k < PiecesPerSide then Player1 else Player2)
    ensures forall k | 0 <= k < PiecesPerSide ::
      InitialSquare(k + PiecesPerSide) ==
        (BoardSize - 1 - InitialSquare(k).0, InitialSquare(k).1, Player2)
    ensures forall a, b | 0 <= a < b < 2 * PiecesPerSide ::
      (InitialSquare(a).0, InitialSquare(a).1) != (InitialSquare(b).0, InitialSquare(b).1)
  {
    forall a, b | 0 <= a < b < 2 * PiecesPerSide
      ensures (InitialSquare(a).0, InitialSquare(a).1) != (InitialSquare(b).0, InitialSquare(b).1)
    {
      if a >= BoardSize && b < PiecesPerSide {
        WedgeSquaresDiffer(a - BoardSize, b - BoardSize);
      } else if a >= PiecesPerSide + BoardSize {
        WedgeSquaresDiffer(a - PiecesPerSide - BoardSize, b - PiecesPerSide - BoardSize);
      }
    }
  }

  /** Two different wedge pieces of one side stand on different squares. */
  lemma WedgeSquaresDiffer(j1: int, j2: int)
    requires 0 <= j1 < j2 < 6
    ensures var i1, i2 := j1 / 2 + 1, j2 / 2 + 1;
      (i1, if j1 % 2 == 0 then i1 else BoardSize - 1 - i1) !=
      (i2, if j2 % 2 == 0 then i2 else BoardSize - 1 - i2)
  {
  }

  /** The 30 pieces of a new game, created in the order of InitialSquare. */
  method InitialPieces() returns (ps: seq<Piece>)
    ensures |ps| == 2 * PiecesPerSide && Lists.Distinct(ps)
    ensures forall k | 0 <= k < |ps| ::
      && fresh(ps[k])
      && At(ps[k], InitialSquare(k).0, InitialSquare(k).1)
      && ps[k].owner == InitialSquare(k).2
      && ps[k].color == PlayerColor(ps[k].owner)
      && ps[k].Placed()
  {
    ps := [];
    for col := 0 to BoardSize
      invariant |ps| == col && Lists.Distinct(ps)
      invariant forall k | 0 <= k < |ps| ::
        fresh(ps[k]) && At(ps[k], InitialSquare(k).0, InitialSquare(k).1) &&
        ps[k].owner == InitialSquare(k).2 && ps[k].color == PlayerColor(ps[k].owner) && ps[k].Placed()
    {
      var p := new Piece(Some(0), Some(col), PlayerColor(Player1), Player1);
      ps := ps + [p];
    }
    for i := 1 to 4
      invariant |ps| == BoardSize + 2 * (i - 1) && Lists.Distinct(ps)
      invariant forall k | 0 <= k < |ps| ::
        fresh(ps[k]) && At(ps[k], InitialSquare(k).0, InitialSquare(k).1) &&
        ps[k].owner == InitialSquare(k).2 && ps[k].color == PlayerColor(ps[k].owner) && ps[k].Placed()
    {
      var p := new Piece(Some(i), Some(i), PlayerColor(Player1), Player1);
      ps := ps + [p];
      p := new Piece(Some(i), Some(BoardSize - 1 - i), PlayerColor(Player1), Player1);
      ps := ps + [p];
    }
    for col := 0 to BoardSize
      invariant |ps| == PiecesPerSide + col && Lists.Distinct(ps)
      invariant forall k | 0 <= k < |ps| ::
        fresh(ps[k]) && At(ps[k], InitialSquare(k).0, InitialSquare(k).1) &&
        ps[k].owner == InitialSquare(k).2 && ps[k].color == PlayerColor(ps[k].owner) && ps[k].Placed()
    {
      var p := new Piece(Some(BoardSize - 1), Some(col), PlayerColor(Player2), Player2);
      ps := ps + [p];
    }
    for i := 1 to 4
      invariant |ps| == PiecesPerSide + BoardSize + 2 * (i - 1) && Lists.Distinct(ps)
      invariant forall k | 0 <= k < |ps| ::
        fresh(ps[k]) && At(ps[k], InitialSquare(k).0, InitialSquare(k).1) &&
        ps[k].owner == InitialSquare(k).2 && ps[k].color == PlayerColor(ps[k].owner) && ps[k].Placed()
    {
      var p := new Piece(Some(BoardSize - 1 - i), Some(i), PlayerColor(Player2), Player2);
      ps := ps + [p];
      p := new Piece(Some(BoardSize - 1 - i), Some(BoardSize - 1 - i), PlayerColor(Player2), Player2);
      ps := ps + [p];
    }
  }

  /** What a click on board square (rr, cc) does once a piece is selected. */
  datatype Click =
    | Reselect(piece: Piece)   // an own piece was clicked: it becomes the selection
    | Deselect                 // the click fell outside the board
    | CaptureMandatory         // a valid quiet move while a capture exists: refused
    | InvalidMove              // move validation refused the move
    | Play(move: Move)         // the move is made

  /**
   * The decision of the click handler. Clicking an own piece reselects; a
   * destination is played only when move validation accepts it and, if any
   * capture move exists for the side to move, the move is itself a capture.
   */
  function ClickOutcome(ps: seq<Piece>, selected: Piece, current: Player, rr: int, cc: int,
                        captures: seq<Move>): (d: Click)
    requires selected.row.Some? && selected.col.Some?
    reads ps, selected
    ensures d == Deselect <==> !InBounds(rr, cc)
    ensures InBounds(rr, cc) && Empty(ps, rr, cc) ==>
      (d.Play? <==> IsValidMove(ps, selected, rr, cc).ok &&
                    (captures == [] || IsValidMove(ps, selected, rr, cc).captured.Some?))
    ensures d.Reselect? ==> d.piece in ps && At(d.piece, rr, cc) && d.piece.owner == current
    ensures d.Play? ==>
      && d.move.piece == selected && d.move.row == rr && d.move.col == cc
      && IsValidMove(ps, selected, rr, cc) == Verdict(true, d.move.captured)
      && (captures != [] ==> d.move.captured.Some?)
    ensures d == CaptureMandatory <==>
      && InBounds(rr, cc) && Empty(ps, rr, cc)
      && IsValidMove(ps, selected, rr, cc) == Verdict(true, None)
      && captures != []
    ensures d == InvalidMove ==> !IsValidMove(ps, selected, rr, cc).ok
    ensures InBounds(rr, cc) && PieceAt(ps, rr, cc).Some? && PieceAt(ps, rr, cc).value.owner == current ==>
      d == Reselect(PieceAt(ps, rr, cc).value)
    ensures InBounds(rr, cc) && PieceAt(ps, rr, cc).Some? && PieceAt(ps, rr, cc).value.owner != current ==>
      d == InvalidMove
  {
    if 0 <= rr < BoardSize && 0 <= cc < BoardSize then
      var clicked := PieceAt(ps, rr, cc);
      if clicked.Some? && clicked.value.owner == current then Reselect(clicked.value)
      else
        var v := IsValidMove(ps, selected, rr, cc);
        if v.ok then
          if captures != [] && v.captured.None? then CaptureMandatory
          else Play(Move(selected, rr, cc, v.captured))
        else InvalidMove
    else Deselect
  }
}
