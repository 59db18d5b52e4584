/**
 * The computer player: the move generators with their mandatory-capture
 * rule, material evaluation, capture-first move ordering, the clock-to-budget
 * rule, and the fixed-depth negamax search with alpha-beta pruning and a
 * transposition table, which makes and unmakes moves on the game in place.
 */
module Ai {
  import opened Wrappers
  import opened Board
  import opened Rules
  import opened Fianco
  import Lists

  // ---------------------------------------------------------------------
  // Move generation
  // ---------------------------------------------------------------------

  /**
   * The offsets the full generator tries for a piece of `player`, in order:
   * one step forward, one step right, one step left, and the two forward
   * jumps towards column +2 and column -2.
   */
  function Offsets(player: Player): seq<(int, int)> {
    var f := Forward(player);
    [(f, 0), (0, 1), (0, -1), (2 * f, 2), (2 * f, -2)]
  }

  /** The offsets the capture generator tries: the two forward jumps, +2 column first. */
  function JumpOffsets(player: Player): seq<(int, int)> {
    var f := Forward(player);
    [(2 * f, 2), (2 * f, -2)]
  }

  /** The non-capture candidate move to (r, c), kept when it is on the board and validation accepts it. */
  function QuietTo(ps: seq<Piece>, piece: Piece, r: int, c: int): seq<Move>
    requires piece.row.Some? && piece.col.Some?
    reads ps, piece
  {
    if InBounds(r, c) then
      var v := IsValidMove(ps, piece, r, c);
      if v.ok && v.captured.None? then [Move(piece, r, c, None)] else []
    else []
  }

  /** The capture candidates of `piece` towards the offsets offs that validation accepts, in order. */
  function CapturesToward(ps: seq<Piece>, piece: Piece, offs: seq<(int, int)>): seq<Move>
    requires piece.row.Some? && piece.col.Some?
    reads ps, piece
  {
    if offs == [] then []
    else
      var d := offs[|offs| - 1];
      CapturesToward(ps, piece, offs[..|offs| - 1]) +
        CaptureTo(ps, piece, piece.row.value + d.0, piece.col.value + d.1)
  }

  /** The non-capture candidates of `piece` towards the offsets offs that validation accepts, in order. */
  function QuietsToward(ps: seq<Piece>, piece: Piece, offs: seq<(int, int)>): seq<Move>
    requires piece.row.Some? && piece.col.Some?
    reads ps, piece
  {
    if offs == [] then []
    else
      var d := offs[|offs| - 1];
      QuietsToward(ps, piece, offs[..|offs| - 1]) +
        QuietTo(ps, piece, piece.row.value + d.0, piece.col.value + d.1)
  }

  /** What piece p adds to the non-capture list of `player`: its non-captures when it is one of its pieces with non-negative coordinates. */
  function QuietsBy(ps: seq<Piece>, player: Player, p: Piece): seq<Move>
    requires p.row.Some? && p.col.Some?
    reads ps, p
  {
    if p.owner == player && NonNegative(p) then QuietsToward(ps, p, Offsets(player)) else []
  }

  /** The non-capture moves of `player` from the first n pieces of ps, piece by piece. */
  function QuietMovesOf(ps: seq<Piece>, player: Player, n: nat): seq<Move>
    requires HasSquares(ps) && n <= |ps|
    reads ps
  {
    if n == 0 then [] else QuietMovesOf(ps, player, n - 1) + QuietsBy(ps, player, ps[n - 1])
  }

  /**
   * What the full generator returns for `player`: its capture moves when it
   * has one, and its non-capture moves otherwise.
   */
  function PossibleMoves(ps: seq<Piece>, player: Player): seq<Move>
    requires HasSquares(ps)
    reads ps
  {
    var captures := CaptureMoves(ps, player);
    if captures != [] then captures else QuietMovesOf(ps, player, |ps|)
  }

  /**
   * One more offset, the k-th, leading to (r, c), appends its candidates: the
   * prefix of length n == k + 1 adds them to the prefix of length k.
   */
  lemma {:induction false} TowardSnoc(ps: seq<Piece>, piece: Piece, offs: seq<(int, int)>, k: nat, n: nat, r: int, c: int)
    requires piece.row.Some? && piece.col.Some? && n == k + 1 <= |offs|
    requires r == piece.row.value + offs[k].0 && c == piece.col.value + offs[k].1
    ensures CapturesToward(ps, piece, offs[..n]) ==
      CapturesToward(ps, piece, offs[..k]) + CaptureTo(ps, piece, r, c)
    ensures QuietsToward(ps, piece, offs[..n]) ==
      QuietsToward(ps, piece, offs[..k]) + QuietTo(ps, piece, r, c)
  {
    assert offs[..n][..k] == offs[..k];
  }

  /** A step never captures and a jump is never a non-capture. */
  lemma {:induction false} StepsAndJumps(ps: seq<Piece>, piece: Piece, r: int, c: int)
    requires piece.row.Some? && piece.col.Some?
    ensures !IsJump(piece.owner, r - piece.row.value, c - piece.col.value) ==>
      CaptureTo(ps, piece, r, c) == []
    ensures !IsStep(piece.owner, r - piece.row.value, c - piece.col.value) ==>
      QuietTo(ps, piece, r, c) == []
  {
  }

  /** The three step offsets yield no capture candidate. */
  lemma {:induction false} StepOffsetsCaptureNothing(ps: seq<Piece>, piece: Piece)
    requires piece.row.Some? && piece.col.Some?
    ensures CapturesToward(ps, piece, Offsets(piece.owner)[..3]) == []
  {
    var row, col, f := piece.row.value, piece.col.value, Forward(piece.owner);
    var o := Offsets(piece.owner);
    assert o[..0] == [];
    TowardSnoc(ps, piece, o, 0, 1, row + f, col);
    StepsAndJumps(ps, piece, row + f, col);
    TowardSnoc(ps, piece, o, 1, 2, row, col + 1);
    StepsAndJumps(ps, piece, row, col + 1);
    TowardSnoc(ps, piece, o, 2, 3, row, col - 1);
    StepsAndJumps(ps, piece, row, col - 1);
  }

  /** The three steps and the jump towards column +2 yield only that jump's capture candidate. */
  lemma {:induction false} FourOffsetsCaptures(ps: seq<Piece>, piece: Piece)
    requires piece.row.Some? && piece.col.Some?
    ensures CapturesToward(ps, piece, Offsets(piece.owner)[..4]) ==
      CaptureTo(ps, piece, piece.row.value + 2 * Forward(piece.owner), piece.col.value + 2)
  {
    StepOffsetsCaptureNothing(ps, piece);
    TowardSnoc(ps, piece, Offsets(piece.owner), 3, 4,
      piece.row.value + 2 * Forward(piece.owner), piece.col.value + 2);
  }

  /** A piece's capture candidates towards its five offsets are its two capture jumps, in order. */
  lemma {:induction false} FiveOffsetsCaptures(ps: seq<Piece>, piece: Piece)
    requires piece.row.Some? && piece.col.Some?
    ensures CapturesToward(ps, piece, Offsets(piece.owner)) == PieceCaptures(ps, piece)
  {
    var o := Offsets(piece.owner);
    FourOffsetsCaptures(ps, piece);
    TowardSnoc(ps, piece, o, 4, 5, piece.row.value + 2 * Forward(piece.owner), piece.col.value - 2);
    assert o[..5] == o;
  }

  /** The jump towards column +2 alone yields that jump's capture candidate. */
  lemma {:induction false} FirstJumpCaptures(ps: seq<Piece>, piece: Piece)
    requires piece.row.Some? && piece.col.Some?
    ensures CapturesToward(ps, piece, JumpOffsets(piece.owner)[..1]) ==
      CaptureTo(ps, piece, piece.row.value + 2 * Forward(piece.owner), piece.col.value + 2)
  {
    assert JumpOffsets(piece.owner)[..0] == [];
    TowardSnoc(ps, piece, JumpOffsets(piece.owner), 0, 1,
      piece.row.value + 2 * Forward(piece.owner), piece.col.value + 2);
  }

  /** A piece's capture candidates towards its two jump offsets are its two capture jumps, in order. */
  lemma {:induction false} JumpOffsetsCaptures(ps: seq<Piece>, piece: Piece)
    requires piece.row.Some? && piece.col.Some?
    ensures CapturesToward(ps, piece, JumpOffsets(piece.owner)) == PieceCaptures(ps, piece)
  {
    var j := JumpOffsets(piece.owner);
    FirstJumpCaptures(ps, piece);
    TowardSnoc(ps, piece, j, 1, 2, piece.row.value + 2 * Forward(piece.owner), piece.col.value - 2);
    assert j[..2] == j;
  }

  /** The two jump offsets add no non-capture candidate to the three steps'. */
  lemma {:induction false} JumpOffsetsQuietNothing(ps: seq<Piece>, piece: Piece)
    requires piece.row.Some? && piece.col.Some?
    ensures QuietsToward(ps, piece, Offsets(piece.owner)) == QuietsToward(ps, piece, Offsets(piece.owner)[..3])
  {
    var row, col, f := piece.row.value, piece.col.value, Forward(piece.owner);
    var o := Offsets(piece.owner);
    TowardSnoc(ps, piece, o, 3, 4, row + 2 * f, col + 2);
    StepsAndJumps(ps, piece, row + 2 * f, col + 2);
    TowardSnoc(ps, piece, o, 4, 5, row + 2 * f, col - 2);
    StepsAndJumps(ps, piece, row + 2 * f, col - 2);
    assert o[..5] == o;
  }

  /** The non-capture candidates of a piece are those towards its three step offsets, in order. */
  lemma {:induction false} StepOffsetsQuiets(ps: seq<Piece>, piece: Piece)
    requires piece.row.Some? && piece.col.Some?
    ensures QuietsToward(ps, piece, Offsets(piece.owner)[..3]) ==
      QuietTo(ps, piece, piece.row.value + Forward(piece.owner), piece.col.value) +
      QuietTo(ps, piece, piece.row.value, piece.col.value + 1) +
      QuietTo(ps, piece, piece.row.value, piece.col.value - 1)
  {
    var o := Offsets(piece.owner);
    var q0 := QuietTo(ps, piece, piece.row.value + Forward(piece.owner), piece.col.value);
    var q1 := QuietTo(ps, piece, piece.row.value, piece.col.value + 1);
    assert o[..0] == [];
    TowardSnoc(ps, piece, o, 0, 1, piece.row.value + Forward(piece.owner), piece.col.value);
    assert QuietsToward(ps, piece, o[..1]) == q0;
    TowardSnoc(ps, piece, o, 1, 2, piece.row.value, piece.col.value + 1);
    assert QuietsToward(ps, piece, o[..2]) == q0 + q1;
    TowardSnoc(ps, piece, o, 2, 3, piece.row.value, piece.col.value - 1);
  }

  /**
   * A non-capture candidate of a piece is exactly a move of it to a square on
   * the board that validation accepts without capture.
   */
  lemma {:induction false} QuietsTowardExactly(ps: seq<Piece>, piece: Piece, m: Move)
    requires piece.row.Some? && piece.col.Some?
    ensures m in QuietsToward(ps, piece, Offsets(piece.owner)) <==>
      && m.piece == piece && InBounds(m.row, m.col) && m.captured.None?
      && IsValidMove(ps, piece, m.row, m.col) == Verdict(true, None)
  {
    var row, col, f := piece.row.value, piece.col.value, Forward(piece.owner);
    JumpOffsetsQuietNothing(ps, piece);
    StepOffsetsQuiets(ps, piece);
    QuietToExactly(ps, piece, row + f, col, m);
    QuietToExactly(ps, piece, row, col + 1, m);
    QuietToExactly(ps, piece, row, col - 1, m);
    if && m.piece == piece && InBounds(m.row, m.col) && m.captured.None?
       && IsValidMove(ps, piece, m.row, m.col) == Verdict(true, None) {
      assert IsStep(piece.owner, m.row - row, m.col - col);
    }
  }

  /** The candidate towards (r, c) is the non-capture move there, kept exactly when it is on the board and accepted without capture. */
  lemma QuietToExactly(ps: seq<Piece>, piece: Piece, r: int, c: int, m: Move)
    requires piece.row.Some? && piece.col.Some?
    ensures m in QuietTo(ps, piece, r, c) <==>
      m == Move(piece, r, c, None) && InBounds(r, c) && IsValidMove(ps, piece, r, c) == Verdict(true, None)
  {
  }

  /** The candidates towards any offsets are moves of the piece itself. */
  lemma {:induction false} QuietsTowardPiece(ps: seq<Piece>, piece: Piece, offs: seq<(int, int)>, m: Move)
    requires piece.row.Some? && piece.col.Some? && m in QuietsToward(ps, piece, offs)
    ensures m.piece == piece
  {
    var d := offs[|offs| - 1];
    if m !in QuietTo(ps, piece, piece.row.value + d.0, piece.col.value + d.1) {
      QuietsTowardPiece(ps, piece, offs[..|offs| - 1], m);
    }
  }

  /** What one piece adds to the non-capture list are exactly its legal non-capture moves. */
  lemma OwnQuietsExactly(ps: seq<Piece>, player: Player, p: Piece, m: Move)
    requires HasSquares(ps) && p in ps
    ensures m in QuietsBy(ps, player, p) <==> m.piece == p && LegalFor(ps, player, m) && m.captured.None?
  {
    if p.owner == player && NonNegative(p) {
      QuietsTowardExactly(ps, p, m);
    }
  }

  /**
   * The non-capture list of the first n pieces holds exactly the moves that
   * a piece among them adds by itself.
   */
  lemma {:induction false} QuietMovesOfBy(ps: seq<Piece>, player: Player, n: nat, m: Move)
    requires HasSquares(ps) && n <= |ps|
    ensures m in QuietMovesOf(ps, player, n) <==>
      m.piece in ps[..n] && m.piece in ps && m in QuietsBy(ps, player, m.piece)
  {
    if n > 0 {
      var p := ps[n - 1];
      assert QuietMovesOf(ps, player, n) == QuietMovesOf(ps, player, n - 1) + QuietsBy(ps, player, p);
      PrefixMember(ps, n, m.piece);
      QuietMovesOfBy(ps, player, n - 1, m);
      if m in QuietsBy(ps, player, p) {
        QuietsTowardPiece(ps, p, Offsets(player), m);
      }
    }
  }

  /** The non-capture list holds exactly the legal non-capture moves by the first n pieces. */
  lemma QuietMovesOfExactly(ps: seq<Piece>, player: Player, n: nat, m: Move)
    requires HasSquares(ps) && n <= |ps|
    ensures m in QuietMovesOf(ps, player, n) <==>
      m.piece in ps[..n] && LegalFor(ps, player, m) && m.captured.None?
  {
    QuietMovesOfBy(ps, player, n, m);
    if m.piece in ps[..n] {
      OwnQuietsExactly(ps, player, m.piece, m);
    }
  }

  /**
   * The mandatory-capture rule: the full generator returns exactly the legal
   * moves of `player` that capture when the player has a capture, and
   * exactly its legal non-capture moves when it has none.
   */
  lemma {:induction false} PossibleMovesExactly(ps: seq<Piece>, player: Player, m: Move)
    requires HasSquares(ps)
    ensures m in PossibleMoves(ps, player) <==>
      LegalFor(ps, player, m) && (m.captured.Some? <==> CaptureMoves(ps, player) != [])
  {
    CaptureMovesExactly(ps, player, m);
    QuietMovesOfExactly(ps, player, |ps|, m);
    assert ps[..|ps|] == ps;
  }

  /** The (i + 1)-th piece appends its own captures to the capture list. */
  lemma CapturesSnoc(ps: seq<Piece>, player: Player, i: nat)
    requires HasSquares(ps) && i < |ps|
    ensures CaptureMovesOf(ps, player, i + 1) == CaptureMovesOf(ps, player, i) +
      CapturesBy(ps, player, ps[i])
  {
  }

  /** The (i + 1)-th piece appends its own captures and non-captures to the two lists. */
  lemma MovesSnoc(ps: seq<Piece>, player: Player, i: nat, captures: seq<Move>, quiets: seq<Move>)
    requires HasSquares(ps) && i < |ps|
    requires captures == CapturesBy(ps, player, ps[i])
    requires quiets == QuietsBy(ps, player, ps[i])
    ensures CaptureMovesOf(ps, player, i + 1) == CaptureMovesOf(ps, player, i) + captures
    ensures QuietMovesOf(ps, player, i + 1) == QuietMovesOf(ps, player, i) + quiets
  {
    CapturesSnoc(ps, player, i);
    QuietsSnoc(ps, player, i);
  }

  /** The (i + 1)-th piece appends its own non-captures to the non-capture list. */
  lemma QuietsSnoc(ps: seq<Piece>, player: Player, i: nat)
    requires HasSquares(ps) && i < |ps|
    ensures QuietMovesOf(ps, player, i + 1) == QuietMovesOf(ps, player, i) +
      QuietsBy(ps, player, ps[i])
  {
  }

  /**
   * The inner loop of both generators: the candidates of `piece` towards each
   * offset that stay on the board and that validation accepts, the captures
   * and the non-captures collected apart.
   */
  method PieceMoves(ps: seq<Piece>, piece: Piece, dirs: seq<(int, int)>)
    returns (captures: seq<Move>, quiets: seq<Move>)
    requires piece.row.Some? && piece.col.Some?
    ensures captures == CapturesToward(ps, piece, dirs)
    ensures quiets == QuietsToward(ps, piece, dirs)
  {
    captures, quiets := [], [];
    for k := 0 to |dirs|
      invariant captures == CapturesToward(ps, piece, dirs[..k])
      invariant quiets == QuietsToward(ps, piece, dirs[..k])
    {
      var (r, c) := (piece.row.value + dirs[k].0, piece.col.value + dirs[k].1);
      TowardSnoc(ps, piece, dirs, k, k + 1, r, c);
      if InBounds(r, c) {
        var v := IsValidMove(ps, piece, r, c);
        if v.ok {
          if v.captured.Some? {
            captures := captures + [Move(piece, r, c, v.captured)];
          } else {
            quiets := quiets + [Move(piece, r, c, None)];
          }
        }
      }
    }
    assert dirs[..|dirs|] == dirs;
  }

  /**
   * The capture generator: for each live piece of `player` with non-negative
   * coordinates, its two forward jumps that stay on the board, kept when
   * validation accepts them as captures.
   */
  method GetAllPossibleCaptureMoves(game: Fianco, player: Player) returns (moves: seq<Move>)
    requires HasSquares(game.pieces)
    ensures moves == CaptureMoves(game.pieces, player)
  {
    var ps := game.pieces;
    moves := [];
    for i := 0 to |ps|
      invariant moves == CaptureMovesOf(ps, player, i)
    {
      moves := AddOwnCaptures(ps, player, i, moves);
    }
  }

  /** One round of the capture generator's loop: the i-th piece's captures appended to the list. */
  method AddOwnCaptures(ps: seq<Piece>, player: Player, i: nat, moves: seq<Move>) returns (moves': seq<Move>)
    requires HasSquares(ps) && i < |ps| && moves == CaptureMovesOf(ps, player, i)
    ensures moves' == CaptureMovesOf(ps, player, i + 1)
  {
    CapturesSnoc(ps, player, i);
    var captures := OwnCaptures(ps, ps[i], player);
    moves' := moves + captures;
  }

  /**
   * The body of the capture generator's loop for one piece: nothing for a
   * piece of the other side or one with a negative coordinate, and otherwise
   * its candidates towards the two jump offsets that validation accepts as
   * captures.
   */
  method OwnCaptures(ps: seq<Piece>, piece: Piece, player: Player) returns (captures: seq<Move>)
    requires piece.row.Some? && piece.col.Some?
    ensures captures == CapturesBy(ps, player, piece)
  {
    captures := [];
    if piece.owner == player {
      if piece.row.value < 0 || piece.col.value < 0 {
        return;
      }
      var quiets;
      captures, quiets := PieceMoves(ps, piece, JumpOffsets(player));
      JumpOffsetsCaptures(ps, piece);
    }
  }

  /**
   * The full generator: for each live piece of `player` with non-negative
   * coordinates, its five candidate moves that stay on the board and that
   * validation accepts, captures and non-captures collected apart; the
   * captures are returned when there is one, the non-captures otherwise.
   */
  method GetAllPossibleMoves(game: Fianco, player: Player) returns (moves: seq<Move>)
    requires HasSquares(game.pieces)
    ensures moves == PossibleMoves(game.pieces, player)
  {
    var captureMoves, allMoves := CollectMoves(game.pieces, player);
    if captureMoves != [] {
      moves := captureMoves;
    } else {
      moves := allMoves;
    }
  }

  /** The loop of the full generator: the captures and the non-captures of every piece, collected apart. */
  method CollectMoves(ps: seq<Piece>, player: Player) returns (captureMoves: seq<Move>, allMoves: seq<Move>)
    requires HasSquares(ps)
    ensures captureMoves == CaptureMovesOf(ps, player, |ps|)
    ensures allMoves == QuietMovesOf(ps, player, |ps|)
  {
    captureMoves, allMoves := [], [];
    for i := 0 to |ps|
      invariant captureMoves == CaptureMovesOf(ps, player, i)
      invariant allMoves == QuietMovesOf(ps, player, i)
    {
      captureMoves, allMoves := AddOwnMoves(ps, player, i, captureMoves, allMoves);
    }
  }

  /** One round of the full generator's loop: the i-th piece's captures and non-captures appended to the two lists. */
  method AddOwnMoves(ps: seq<Piece>, player: Player, i: nat, captureMoves: seq<Move>, allMoves: seq<Move>)
    returns (captureMoves': seq<Move>, allMoves': seq<Move>)
    requires HasSquares(ps) && i < |ps|
    requires captureMoves == CaptureMovesOf(ps, player, i) && allMoves == QuietMovesOf(ps, player, i)
    ensures captureMoves' == CaptureMovesOf(ps, player, i + 1)
    ensures allMoves' == QuietMovesOf(ps, player, i + 1)
  {
    var captures, quiets := OwnMoves(ps, ps[i], player);
    MovesSnoc(ps, player, i, captures, quiets);
    captureMoves', allMoves' := captureMoves + captures, allMoves + quiets;
  }

  /**
   * The body of the full generator's loop for one piece: nothing for a piece
   * of the other side or one with a negative coordinate, and otherwise its
   * candidates towards the five offsets, captures and non-captures apart.
   */
  method OwnMoves(ps: seq<Piece>, piece: Piece, player: Player) returns (captures: seq<Move>, quiets: seq<Move>)
    requires piece.row.Some? && piece.col.Some?
    ensures captures == CapturesBy(ps, player, piece)
    ensures quiets == QuietsBy(ps, player, piece)
  {
    captures, quiets := [], [];
    if piece.owner == player {
      if piece.row.value < 0 || piece.col.value < 0 {
        return;
      }
      captures, quiets := PieceMoves(ps, piece, Offsets(player));
      FiveOffsetsCaptures(ps, piece);
    }
  }

  // ---------------------------------------------------------------------
  // Evaluation, ordering and the time budget
  // ---------------------------------------------------------------------

  /** The live pieces of side o with non-negative coordinates. */
  ghost function OnBoard(ps: seq<Piece>, o: Player): set<Piece>
    requires HasSquares(ps)
    reads ps
  {
    set p | p in ps && p.owner == o && NonNegative(p)
  }

  /**
   * The material balance in Player1's favour: +1 for each of its pieces and
   * -1 for each of Player2's, over the pieces with non-negative coordinates.
   */
  function Evaluate(ps: seq<Piece>): (v: int)
    requires HasSquares(ps)
    reads ps
    ensures -|ps| <= v <= |ps|
  {
    if ps == [] then 0
    else
      var p := ps[|ps| - 1];
      Evaluate(ps[..|ps| - 1]) + (if NonNegative(p) then (if p.owner == Player1 then 1 else -1) else 0)
  }

  /**
   * The evaluation is the number of Player1's pieces on the board minus the
   * number of Player2's, for a list that holds no piece twice.
   */
  lemma {:induction false} MaterialBalance(ps: seq<Piece>)
    requires HasSquares(ps) && Lists.Distinct(ps)
    ensures Evaluate(ps) == |OnBoard(ps, Player1)| - |OnBoard(ps, Player2)|
  {
    if ps != [] {
      var ps', p := ps[..|ps| - 1], ps[|ps| - 1];
      assert ps == ps' + [p];
      assert Lists.Distinct(ps');
      MaterialBalance(ps');
      assert p !in ps' by {
        forall k | 0 <= k < |ps'| ensures ps'[k] != p { assert ps[k] == ps'[k]; }
      }
      OnBoardSnoc(ps', p, Player1);
      OnBoardSnoc(ps', p, Player2);
    }
  }

  /** Appending a new piece p adds it to the on-board set of its side when its coordinates are non-negative. */
  lemma OnBoardSnoc(ps: seq<Piece>, p: Piece, o: Player)
    requires HasSquares(ps + [p]) && p !in ps
    ensures HasSquares(ps)
    ensures OnBoard(ps + [p], o) == OnBoard(ps, o) + (if p.owner == o && NonNegative(p) then {p} else {})
    ensures p !in OnBoard(ps, o)
  {
    assert forall q | q in ps :: q in ps + [p];
    forall q | q in OnBoard(ps + [p], o)
      ensures q in OnBoard(ps, o) + (if p.owner == o && NonNegative(p) then {p} else {})
    {
      assert q in ps || q == p;
    }
  }

  /** The capture moves of ms, in their order. */
  function CapturesOf(ms: seq<Move>): (r: seq<Move>)
    ensures |r| <= |ms|
  {
    if ms == [] then []
    else
      var m := ms[|ms| - 1];
      CapturesOf(ms[..|ms| - 1]) + (if m.captured.Some? then [m] else [])
  }

  /** The non-capture moves of ms, in their order. */
  function QuietsOf(ms: seq<Move>): (r: seq<Move>)
    ensures |r| <= |ms|
  {
    if ms == [] then []
    else
      var m := ms[|ms| - 1];
      QuietsOf(ms[..|ms| - 1]) + (if m.captured.None? then [m] else [])
  }

  /** The filters keep exactly the moves of their kind. */
  lemma {:induction false} FiltersKeep(ms: seq<Move>, m: Move)
    ensures m in CapturesOf(ms) <==> m in ms && m.captured.Some?
    ensures m in QuietsOf(ms) <==> m in ms && m.captured.None?
  {
    if ms != [] {
      var ms' := ms[..|ms| - 1];
      assert ms == ms' + [ms[|ms| - 1]];
      FiltersKeep(ms', m);
    }
  }

  /**
   * The ordering keeps the same moves: captures first, then non-captures, each
   * in their original relative order; it is a permutation of its input.
   */
  lemma {:induction false} OrderIsPermutation(ms: seq<Move>)
    ensures multiset(CapturesOf(ms) + QuietsOf(ms)) == multiset(ms)
  {
    if ms != [] {
      var ms', m := ms[..|ms| - 1], ms[|ms| - 1];
      assert ms == ms' + [m];
      OrderIsPermutation(ms');
    }
  }

  /** In the ordered list the captures come first and the non-captures after them. */
  lemma {:induction false} CapturesFirst(ms: seq<Move>)
    ensures var r, n := CapturesOf(ms) + QuietsOf(ms), |CapturesOf(ms)|;
      && (forall i | 0 <= i < n :: r[i].captured.Some?)
      && (forall i | n <= i < |r| :: r[i].captured.None?)
  {
    var c: seq<Move>, q: seq<Move> := CapturesOf(ms), QuietsOf(ms);
    forall i | 0 <= i < |c| ensures (c + q)[i].captured.Some? {
      assert (c + q)[i] == c[i] && c[i] in c;
      FiltersKeep(ms, c[i]);
    }
    forall i | |c| <= i < |c + q| ensures (c + q)[i].captured.None? {
      assert (c + q)[i] == q[i - |c|] && q[i - |c|] in q;
      FiltersKeep(ms, q[i - |c|]);
    }
  }

  /** Both filters distribute over concatenation. */
  lemma {:induction false} FiltersAppend(a: seq<Move>, b: seq<Move>)
    ensures CapturesOf(a + b) == CapturesOf(a) + CapturesOf(b)
    ensures QuietsOf(a + b) == QuietsOf(a) + QuietsOf(b)
    decreases |b|
  {
    if b == [] {
      assert a + b == a;
    } else {
      var b', x := b[..|b| - 1], b[|b| - 1];
      assert (a + b)[..|a + b| - 1] == a + b';
      assert (a + b)[|a + b| - 1] == x;
      FiltersAppend(a, b');
    }
  }

  /**
   * A move between two stretches of moves goes into its part right after the
   * moves of its kind before it, and before those after it.
   */
  lemma FiltersSplit(pre: seq<Move>, x: Move, post: seq<Move>)
    ensures CapturesOf(pre + [x] + post) ==
      CapturesOf(pre) + (if x.captured.Some? then [x] else []) + CapturesOf(post)
    ensures QuietsOf(pre + [x] + post) ==
      QuietsOf(pre) + (if x.captured.None? then [x] else []) + QuietsOf(post)
  {
    assert [x][..0] == [];
    FiltersAppend(pre, [x]);
    FiltersAppend(pre + [x], post);
  }

  /**
   * The capture part keeps the captures' relative order: two captures at
   * i < j in the input stand, in that order, at the positions given by the
   * number of captures before each.
   */
  lemma CapturesStable(ms: seq<Move>, i: nat, j: nat)
    requires i < j < |ms| && ms[i].captured.Some? && ms[j].captured.Some?
    ensures var c, p, q := CapturesOf(ms), |CapturesOf(ms[..i])|, |CapturesOf(ms[..j])|;
      p < q < |c| && c[p] == ms[i] && c[q] == ms[j]
  {
    assert ms == ms[..j] + [ms[j]] + ms[j + 1..];
    assert ms[..j] == ms[..i] + [ms[i]] + ms[i + 1..j];
    FiltersSplit(ms[..j], ms[j], ms[j + 1..]);
    FiltersSplit(ms[..i], ms[i], ms[i + 1..j]);
  }

  /**
   * The non-capture part keeps the non-captures' relative order, in the
   * same sense.
   */
  lemma QuietsStable(ms: seq<Move>, i: nat, j: nat)
    requires i < j < |ms| && ms[i].captured.None? && ms[j].captured.None?
    ensures var c, p, q := QuietsOf(ms), |QuietsOf(ms[..i])|, |QuietsOf(ms[..j])|;
      p < q < |c| && c[p] == ms[i] && c[q] == ms[j]
  {
    assert ms == ms[..j] + [ms[j]] + ms[j + 1..];
    assert ms[..j] == ms[..i] + [ms[i]] + ms[i + 1..j];
    FiltersSplit(ms[..j], ms[j], ms[j + 1..]);
    FiltersSplit(ms[..i], ms[i], ms[i + 1..j]);
  }

  /** Orders moves for the search: the captures first, then the others, stably. */
  method OrderMoves(moves: seq<Move>) returns (r: seq<Move>)
    ensures r == CapturesOf(moves) + QuietsOf(moves)
  {
    var captures, normal := [], [];
    for i := 0 to |moves|
      invariant captures == CapturesOf(moves[..i]) && normal == QuietsOf(moves[..i])
    {
      assert moves[..i + 1][..i] == moves[..i];
      var m := moves[i];
      if m.captured.Some? {
        captures := captures + [m];
      } else {
        normal := normal + [m];
      }
    }
    assert moves[..|moves|] == moves;
    r := captures + normal;
  }

  /** Below this many milliseconds left on its clock the AI plays faster. */
  const LowClock: int := 60000
  /** The smallest search budget, in milliseconds. */
  const MinBudget: int := 2000
  /** The budget with plenty of time left, in milliseconds. */
  const FullBudget: int := 5000

  /**
   * The search budget for a clock with `remaining` milliseconds: with plenty
   * left, the full budget; otherwise a twentieth of the remainder (rounded
   * down), but never less than the minimum, which keeps it in [2000, 3000).
   * The second and third clauses pin that value: r is at least the rounded-down
   * twentieth, and it exceeds the minimum only by being that twentieth.
   */
  function TimeBudget(remaining: int): (r: int)
    ensures remaining >= LowClock ==> r == FullBudget
    ensures remaining < LowClock ==> MinBudget <= r < 3000
    ensures remaining < LowClock ==> remaining < 20 * (r + 1)
    ensures remaining < LowClock && r > MinBudget ==> 20 * r <= remaining
  {
    if remaining < LowClock then
      var twentieth := remaining / 20;
      if twentieth > MinBudget then twentieth else MinBudget
    else FullBudget
  }

  /** Sets the AI's search budget from the time left on its clock. */
  method UpdateAiTimeLimit(game: Fianco)
    requires game.aiPlayer.Some? && game.aiPlayer.value in game.playerTimes
    modifies game`iterativeTimeLimit
    ensures game.iterativeTimeLimit == TimeBudget(game.playerTimes[game.aiPlayer.value])
  {
    var remainingTime := game.playerTimes[game.aiPlayer.value];
    if remainingTime < LowClock {
      var twentieth := remainingTime / 20;
      game.iterativeTimeLimit := if twentieth > MinBudget then twentieth else MinBudget;
    } else {
      game.iterativeTimeLimit := FullBudget;
    }
  }
}
