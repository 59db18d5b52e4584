/**
 * The computer player's search: fixed-depth negamax with alpha-beta pruning
 * and a transposition table keyed by a hash of the piece placement. The
 * search makes and unmakes moves on the game itself; every make is paired
 * with an unmake, so a search gives the board back as it found it (up to the
 * order of the live list) and changes only the table and the counters.
 */
module Search {
  import opened Wrappers
  import opened Board
  import opened Rules
  import opened Fianco
  import opened Ai
  import Lists

  /** The search window's bound, larger than any score. */
  const Infinity: int := 999999

  /** One live piece's contribution to the placement: its square and its side. */
  type Square = (Option<int>, Option<int>, Player)

  /** The board hash, a function of the placement alone. */
  type Hash = multiset<Square> -> int

  /** Where the live pieces stand, regardless of list order. */
  function Placement(ps: seq<Piece>): (r: multiset<Square>)
    reads ps
    ensures |r| == |ps|
  {
    if ps == [] then multiset{}
    else
      var p := ps[|ps| - 1];
      Placement(ps[..|ps| - 1]) + multiset{(p.row, p.col, p.owner)}
  }

  /** The table key of the live pieces ps. */
  function BoardKey(hash: Hash, ps: seq<Piece>): int
    reads ps
  {
    hash(Placement(ps))
  }

  /** Whether the table answers a search of this depth at key h without expanding. */
  predicate Hit(table: map<int, (int, int)>, h: int, depth: int) {
    h in table && table[h].1 >= depth
  }

  /**
   * A move the search can make and unmake on live pieces `live`: its piece is
   * live, and a captured piece is a different live piece.
   */
  predicate PlayableIn(live: multiset<Piece>, m: Move) {
    && m.piece in live
    && m.captured != Some(m.piece)
    && (m.captured.Some? ==> m.captured.value in live)
  }

  /** Every generated move, in the order the search tries them, can be made and unmade. */
  lemma GeneratedPlayable(ps: seq<Piece>, player: Player)
    requires HasSquares(ps)
    ensures var ms := PossibleMoves(ps, player);
      forall i | 0 <= i < |CapturesOf(ms) + QuietsOf(ms)| ::
        PlayableIn(multiset(ps), (CapturesOf(ms) + QuietsOf(ms))[i])
  {
    var ms := PossibleMoves(ps, player);
    var ordered := CapturesOf(ms) + QuietsOf(ms);
    OrderIsPermutation(ms);
    forall i | 0 <= i < |ordered| ensures PlayableIn(multiset(ps), ordered[i]) {
      var m := ordered[i];
      assert m in multiset(ordered);
      PossibleMovesExactly(ps, player, m);
    }
  }

  /** The search's extra turn flip after each move it makes. */
  method PassTurn(game: Fianco)
    requires game.Valid() && game.ScoresBounded()
    modifies game`turn
    ensures game.Valid() && game.ScoresBounded()
    ensures game.Repr() == old(game.Repr()) && game.PieceCount() == old(game.PieceCount())
    ensures game.pieces == old(game.pieces)
    ensures game.capturedWhite == old(game.capturedWhite) && game.capturedBlack == old(game.capturedBlack)
    ensures forall p | p in old(game.Repr()) :: SpotOf(p) == old(SpotOf(p))
    ensures game.turn == old(game.turn).(currentPlayer := old(game.turn.currentPlayer).Other())
  {
    game.turn := game.turn.(currentPlayer := game.turn.currentPlayer.Other());
  }

  /**
   * The search's make step: make m keeping the undo record, seen for what the
   * search needs of it: the board effect of the move (its piece's square
   * aside) and the record of the squares and the turn attributes from before it.
   */
  method MakeForSearch(game: Fianco, m: Move) returns (prev: Undo)
    requires game.Valid() && game.ScoresBounded() && PlayableIn(multiset(game.pieces), m)
    modifies game`pieces, game`capturedWhite, game`capturedBlack, game`turn,
      m.piece, if m.captured.Some? then {m.captured.value} else {}
    ensures game.Valid() && game.ScoresBounded()
    ensures game.Repr() == old(game.Repr()) && game.PieceCount() == old(game.PieceCount())
    ensures m.captured.Some? ==>
      var c := m.captured.value;
      && game.pieces == Lists.Remove(old(game.pieces), c)
      && game.capturedWhite == old(game.capturedWhite) + (if c.owner == Player1 then [c] else [])
      && game.capturedBlack == old(game.capturedBlack) + (if c.owner == Player2 then [c] else [])
    ensures m.captured.None? ==>
      && game.pieces == old(game.pieces)
      && game.capturedWhite == old(game.capturedWhite) && game.capturedBlack == old(game.capturedBlack)
    ensures prev.piece == m.piece && prev.captured == m.captured && prev.turn == old(game.turn)
    ensures prev.pieceRow == old(m.piece.row) && prev.pieceCol == old(m.piece.col)
    ensures prev.pieceRow.Some? && prev.pieceCol.Some?
    ensures m.captured.Some? ==>
      prev.capturedRow == old(m.captured.value.row) && prev.capturedCol == old(m.captured.value.col) &&
      prev.capturedRow.Some? && prev.capturedCol.Some?
    ensures forall p | p in old(game.Repr()) && p != m.piece && m.captured != Some(p) ::
      SpotOf(p) == old(SpotOf(p))
  {
    assert m.piece in game.pieces;
    prev := game.MakeMove(m);
  }

  /**
   * The search's step down: make m keeping the undo record, then flip the
   * side to move once more. The counters are untouched.
   */
  method Advance(game: Fianco, m: Move) returns (prev: Undo)
    requires game.Valid() && game.ScoresBounded() && PlayableIn(multiset(game.pieces), m)
    modifies game`pieces, game`capturedWhite, game`capturedBlack, game`turn,
      m.piece, if m.captured.Some? then {m.captured.value} else {}
    ensures game.Valid() && game.ScoresBounded()
    ensures game.Repr() == old(game.Repr()) && game.PieceCount() == old(game.PieceCount())
    ensures m.captured.Some? ==>
      var c := m.captured.value;
      && game.pieces == Lists.Remove(old(game.pieces), c)
      && game.capturedWhite == old(game.capturedWhite) + (if c.owner == Player1 then [c] else [])
      && game.capturedBlack == old(game.capturedBlack) + (if c.owner == Player2 then [c] else [])
    ensures m.captured.None? ==>
      && game.pieces == old(game.pieces)
      && game.capturedWhite == old(game.capturedWhite) && game.capturedBlack == old(game.capturedBlack)
    ensures prev.piece == m.piece && prev.captured == m.captured && prev.turn == old(game.turn)
    ensures prev.pieceRow == old(m.piece.row) && prev.pieceCol == old(m.piece.col)
    ensures prev.pieceRow.Some? && prev.pieceCol.Some?
    ensures m.captured.Some? ==>
      prev.capturedRow == old(m.captured.value.row) && prev.capturedCol == old(m.captured.value.col) &&
      prev.capturedRow.Some? && prev.capturedCol.Some?
    ensures forall p | p in old(game.Repr()) && p != m.piece && m.captured != Some(p) ::
      SpotOf(p) == old(SpotOf(p))
    ensures TallyOf(game) == old(TallyOf(game))
  {
    prev := MakeForSearch(game, m);
    PassTurn(game);
  }

  /**
   * The search's unmake step: replay the record of a move made with
   * `MakeForSearch`, which leaves the transposition table alone.
   */
  method UnmakeForSearch(game: Fianco, prev: Undo)
    requires game.Valid() && game.ScoresBounded()
    requires prev.pieceRow.Some? && prev.pieceCol.Some?
    requires prev.captured.Some? ==>
      var c := prev.captured.value;
      c != prev.piece && prev.capturedRow.Some? && prev.capturedCol.Some? &&
      c in game.CapturedOf(c.owner)
    modifies game`pieces, game`capturedWhite, game`capturedBlack, game`turn,
      prev.piece, if prev.captured.Some? then {prev.captured.value} else {}
    ensures game.Valid() && game.ScoresBounded()
    ensures game.Repr() == old(game.Repr()) && game.PieceCount() == old(game.PieceCount())
    ensures prev.piece.row == prev.pieceRow && prev.piece.col == prev.pieceCol
    ensures prev.piece.Placed()
    ensures prev.captured.Some? ==>
      var c := prev.captured.value;
      && c.row == prev.capturedRow && c.col == prev.capturedCol && c.Placed()
      && game.pieces == old(game.pieces) + [c]
      && game.capturedWhite == (if c.owner == Player1 then Lists.Remove(old(game.capturedWhite), c)
                                else old(game.capturedWhite))
      && game.capturedBlack == (if c.owner == Player2 then Lists.Remove(old(game.capturedBlack), c)
                                else old(game.capturedBlack))
    ensures prev.captured.None? ==>
      game.pieces == old(game.pieces) && game.capturedWhite == old(game.capturedWhite) &&
      game.capturedBlack == old(game.capturedBlack)
    ensures game.turn == prev.turn
    ensures forall p | p in old(game.Repr()) && p != prev.piece && prev.captured != Some(p) ::
      SpotOf(p) == old(SpotOf(p))
    ensures TallyOf(game) == old(TallyOf(game))
  {
    game.UnmakeMove(prev);
  }

  /** The spot of every piece the game knows. */
  ghost function Spots(game: Fianco): map<Piece, Spot>
    reads game`pieces, game`capturedWhite, game`capturedBlack, game.Repr()
  {
    map p | p in game.Repr() :: SpotOf(p)
  }

  /**
   * What the search keeps of the game while it works: the game stays valid
   * with its table scores bounded, knows the pieces repr, has shape `shape`
   * and count pieces, and every piece stands at its spot in `spots`.
   */
  ghost predicate Intact(game: Fianco, repr: set<Piece>, shape: GameShape, count: int, spots: map<Piece, Spot>)
    reads game`pieces, game`capturedWhite, game`capturedBlack, game`turn, game`ttable, game.Repr()
  {
    && game.Valid() && game.ScoresBounded()
    && game.Repr() == repr && game.Shape() == shape && game.PieceCount() == count
    && (forall p | p in repr :: p in spots && SpotOf(p) == spots[p])
  }

  /** The search reads the transposition table once per call, and counts it. */
  method Access(game: Fianco, ghost repr: set<Piece>, ghost shape: GameShape, ghost count: int, ghost spots: map<Piece, Spot>)
    requires Intact(game, repr, shape, count, spots)
    modifies game`ttAccesses
    ensures Intact(game, repr, shape, count, spots)
    ensures game.pieces == old(game.pieces) && game.ttable == old(game.ttable)
    ensures TallyOf(game) == old(TallyOf(game)).(accesses := old(game.ttAccesses) + 1)
  {
    game.ttAccesses := game.ttAccesses + 1;
  }

  /** A cutoff of the search, counted. */
  method Prune(game: Fianco, ghost repr: set<Piece>, ghost shape: GameShape, ghost count: int, ghost spots: map<Piece, Spot>)
    requires Intact(game, repr, shape, count, spots)
    modifies game`pruneCount
    ensures Intact(game, repr, shape, count, spots)
    ensures TallyOf(game) == old(TallyOf(game)).(prunes := old(game.pruneCount) + 1)
  {
    game.pruneCount := game.pruneCount + 1;
  }

  /** Stores a score, taken from Player1's side, and its depth under key h. */
  method Store(game: Fianco, h: int, rawScore: int, depth: nat, ghost repr: set<Piece>, ghost shape: GameShape, ghost count: int, ghost spots: map<Piece, Spot>)
    requires Intact(game, repr, shape, count, spots) && -count <= rawScore <= count
    modifies game`ttable
    ensures Intact(game, repr, shape, count, spots)
    ensures TallyOf(game) == old(TallyOf(game))
    ensures game.ttable == old(game.ttable)[h := (rawScore, depth)]
  {
    game.ttable := game.ttable[h := (rawScore, depth)];
  }

  /**
   * A leaf of the search: counts the node, stores the evaluation (from
   * Player1's side) at depth `depth` under key h, and returns it from the
   * side `color` stands for.
   */
  method Leaf(game: Fianco, h: int, depth: nat, color: int, ghost repr: set<Piece>, ghost shape: GameShape, ghost count: int, ghost spots: map<Piece, Spot>) returns (score: int)
    requires Intact(game, repr, shape, count, spots) && (color == 1 || color == -1)
    modifies game`nodesSearched, game`ttable
    ensures Intact(game, repr, shape, count, spots)
    ensures game.pieces == old(game.pieces)
    ensures TallyOf(game) == old(TallyOf(game)).(nodes := old(game.nodesSearched) + 1)
    ensures game.ttable == old(game.ttable)[h := (Evaluate(game.pieces), depth)]
    ensures score == Evaluate(game.pieces) * color && score * color == Evaluate(game.pieces)
    ensures -count <= score <= count
  {
    game.nodesSearched := game.nodesSearched + 1;
    var evalScore := Evaluate(game.pieces);
    Store(game, h, evalScore, depth, repr, shape, count, spots);
    score := evalScore * color;
    Signed(evalScore, color);
  }

  /** Taking a score to the side of color +1 or -1 negates it at most, and taking it back restores it. */
  lemma Signed(v: int, color: int)
    requires color == 1 || color == -1
    ensures v * color == (if color == 1 then v else -v) && v * color * color == v
  {
  }

  /** The search counters: leaves evaluated, cutoffs, and table accesses. */
  datatype Tally = Tally(nodes: int, prunes: int, accesses: int)

  /** The game's search counters. */
  function TallyOf(game: Fianco): Tally
    reads game`nodesSearched, game`pruneCount, game`ttAccesses
  {
    Tally(game.nodesSearched, game.pruneCount, game.ttAccesses)
  }

  /**
   * From t0 to t1 the counters only grow, and the leaves plus cutoffs added
   * never outnumber the table accesses added.
   */
  predicate Within(t0: Tally, t1: Tally) {
    && t0.nodes <= t1.nodes && t0.prunes <= t1.prunes && t0.accesses <= t1.accesses
    && (t1.prunes - t0.prunes) + (t1.nodes - t0.nodes) <= t1.accesses - t0.accesses
  }

  /**
   * What one call of the search does to the counters: it reads the table
   * once and then either answers from it, evaluates one leaf, or expands and
   * prunes at most once, so the accesses strictly grow and bound the leaves
   * plus cutoffs.
   */
  predicate Counted(t0: Tally, t1: Tally) {
    Within(t0, t1) && t0.accesses < t1.accesses
  }

  /**
   * What expanding a node does to the counters: the children's calls, each
   * counted, and at most one cutoff of its own beyond them.
   */
  predicate Expanded(t0: Tally, t1: Tally) {
    && t0.nodes <= t1.nodes && t0.prunes <= t1.prunes && t0.accesses <= t1.accesses
    && (t1.prunes - t0.prunes) + (t1.nodes - t0.nodes) <= t1.accesses - t0.accesses + 1
  }

  /**
   * One iteration of a search loop: make m, flip the side to move once more,
   * search the position below with the window negated, unmake m, and return
   * the child's score negated. The board, the captured lists, the turn
   * attributes and every piece's spot come back as they were.
   */
  method Try(game: Fianco, hash: Hash, m: Move, depth: nat, alpha: int, beta: int, childColor: int, ghost repr: set<Piece>, ghost shape: GameShape, ghost count: int, ghost spots: map<Piece, Spot>)
    returns (score: int)
    requires Intact(game, repr, shape, count, spots)
    requires depth >= 1 && (childColor == 1 || childColor == -1)
    requires PlayableIn(shape.live, m)
    modifies game`pieces, game`capturedWhite, game`capturedBlack, game`turn, game`ttable,
      game`pruneCount, game`nodesSearched, game`ttAccesses, repr
    decreases depth, 0
    ensures Intact(game, repr, shape, count, spots)
    ensures -count <= score <= count
    ensures Counted(old(TallyOf(game)), TallyOf(game))
  {
    assert game.Valid() && game.Repr() == repr;
    assert forall p | p in repr :: allocated(p);
    ghost var pieces0, white0, black0 := game.pieces, game.capturedWhite, game.capturedBlack;
    ghost var tally0 := TallyOf(game);
    var prev := Advance(game, m);
    ghost var pieces1, white1, black1 := game.pieces, game.capturedWhite, game.capturedBlack;
    var s := Negamax(game, hash, depth - 1, -beta, -alpha, childColor);
    ghost var pieces2, tally2 := game.pieces, TallyOf(game);
    assert Counted(tally0, tally2);
    UnmakeForSearch(game, prev);
    assert TallyOf(game) == tally2;
    score := -s;
    forall p | p in repr ensures SpotOf(p) == old(SpotOf(p)) {
      if p == m.piece || m.captured == Some(p) {
        assert old(p.Placed());
      }
    }
    RestoredLists(m, pieces0, white0, black0, pieces1, white1, black1, pieces2,
                  game.pieces, game.capturedWhite, game.capturedBlack);
  }

  /**
   * Unmaking after a search restores the lists: the live list comes back as a
   * multiset and the captured lists exactly. (The lists just before making m
   * are pieces0, white0, black0; just after, pieces1, white1, black1; the
   * search returns pieces2, a reordering of pieces1; the unmake leaves
   * pieces3, white3, black3.)
   */
  lemma RestoredLists(m: Move, pieces0: seq<Piece>, white0: seq<Piece>, black0: seq<Piece>,
                      pieces1: seq<Piece>, white1: seq<Piece>, black1: seq<Piece>,
                      pieces2: seq<Piece>,
                      pieces3: seq<Piece>, white3: seq<Piece>, black3: seq<Piece>)
    requires m.captured.Some? ==>
      var c := m.captured.value;
      && c in pieces0 && c !in white0 && c !in black0
      && pieces1 == Lists.Remove(pieces0, c)
      && white1 == white0 + (if c.owner == Player1 then [c] else [])
      && black1 == black0 + (if c.owner == Player2 then [c] else [])
      && pieces3 == pieces2 + [c]
      && white3 == (if c.owner == Player1 then Lists.Remove(white1, c) else white1)
      && black3 == (if c.owner == Player2 then Lists.Remove(black1, c) else black1)
    requires m.captured.None? ==>
      pieces1 == pieces0 && white1 == white0 && black1 == black0 &&
      pieces3 == pieces2 && white3 == white1 && black3 == black1
    requires multiset(pieces2) == multiset(pieces1)
    ensures multiset(pieces3) == multiset(pieces0) && white3 == white0 && black3 == black0
  {
    if m.captured.Some? {
      var c := m.captured.value;
      calc {
        multiset(pieces3);
        multiset(pieces2) + multiset{c};
        multiset(pieces1) + multiset{c};
        (multiset(pieces0) - multiset{c}) + multiset{c};
      }
      assert multiset(pieces0)[c] > 0;
      if c.owner == Player1 {
        Lists.RemoveAppended(white0, c);
      } else {
        Lists.RemoveAppended(black0, c);
      }
    }
  }

  /**
   * Negamax from the side `color` stands for (+1 for Player1's view, -1 for
   * Player2's), to `depth` more plies, in the window (alpha, beta): it keys
   * the board, counts the table access, and searches the node.
   */
  method Negamax(game: Fianco, hash: Hash, depth: nat, alpha: int, beta: int, color: int)
    returns (score: int)
    requires game.Valid() && game.ScoresBounded() && (color == 1 || color == -1)
    modifies game`pieces, game`capturedWhite, game`capturedBlack, game`turn, game`ttable,
      game`pruneCount, game`nodesSearched, game`ttAccesses, game.Repr()
    decreases depth, 4
    ensures game.Valid() && game.ScoresBounded()
    ensures game.Repr() == old(game.Repr()) && game.Shape() == old(game.Shape())
    ensures forall p | p in old(game.Repr()) :: SpotOf(p) == old(SpotOf(p))
    ensures game.PieceCount() == old(game.PieceCount())
    ensures -game.PieceCount() <= score <= game.PieceCount()
    ensures Counted(old(TallyOf(game)), TallyOf(game))
    ensures var h := old(BoardKey(hash, game.pieces));
      && h in game.ttable && game.ttable[h].0 * color == score && game.ttable[h].1 >= depth
      && (!old(Hit(game.ttable, h, depth)) ==> game.ttable[h] == (score * color, depth))
    ensures var h := old(BoardKey(hash, game.pieces));
      old(Hit(game.ttable, h, depth)) ==>
        && score == old(game.ttable[h].0) * color && game.ttable == old(game.ttable)
        && game.nodesSearched == old(game.nodesSearched) && game.pruneCount == old(game.pruneCount)
        && game.ttAccesses == old(game.ttAccesses) + 1
    ensures var h := old(BoardKey(hash, game.pieces));
      (&& !old(Hit(game.ttable, h, depth))
       && (depth == 0 || old(game.turn.gameOver))) ==>
        && score == old(Evaluate(game.pieces)) * color
        && game.ttable == old(game.ttable)[h := (old(Evaluate(game.pieces)), depth)]
        && game.nodesSearched == old(game.nodesSearched) + 1
        && game.pruneCount == old(game.pruneCount)
        && game.ttAccesses == old(game.ttAccesses) + 1
  {
    var h := BoardKey(hash, game.pieces);
    ghost var repr, shape, count, spots := game.Repr(), game.Shape(), game.PieceCount(), Spots(game);
    assert forall p | p in repr :: allocated(p) && spots[p] == SpotOf(p);
    Access(game, repr, shape, count, spots);
    score := Node(game, hash, h, depth, alpha, beta, color, repr, shape, count, spots);
  }

  /**
   * A node of the search under key h, once its table access is counted: an
   * entry at least as deep as `depth` answers at once; otherwise the node is
   * opened.
   */
  method Node(game: Fianco, hash: Hash, h: int, depth: nat, alpha: int, beta: int, color: int, ghost repr: set<Piece>, ghost shape: GameShape, ghost count: int, ghost spots: map<Piece, Spot>)
    returns (score: int)
    requires Intact(game, repr, shape, count, spots) && (color == 1 || color == -1)
    modifies game`pieces, game`capturedWhite, game`capturedBlack, game`turn, game`ttable,
      game`pruneCount, game`nodesSearched, game`ttAccesses, repr
    decreases depth, 3
    ensures Intact(game, repr, shape, count, spots)
    ensures -count <= score <= count
    ensures Expanded(old(TallyOf(game)), TallyOf(game))
    ensures h in game.ttable && game.ttable[h].0 * color == score && game.ttable[h].1 >= depth
    ensures !old(Hit(game.ttable, h, depth)) ==> game.ttable[h] == (score * color, depth)
    ensures old(Hit(game.ttable, h, depth)) ==>
      && score == old(game.ttable[h].0) * color && game.ttable == old(game.ttable)
      && TallyOf(game) == old(TallyOf(game))
    ensures (!old(Hit(game.ttable, h, depth)) && (depth == 0 || old(game.turn.gameOver))) ==>
      && score == old(Evaluate(game.pieces)) * color
      && game.ttable == old(game.ttable)[h := (old(Evaluate(game.pieces)), depth)]
      && TallyOf(game) == old(TallyOf(game)).(nodes := old(game.nodesSearched) + 1)
  {
    if h in game.ttable {
      var (storedScore, storedDepth) := game.ttable[h];
      if storedDepth >= depth {
        assert -count <= storedScore <= count;
        assert storedScore * color * color == storedScore;
        return storedScore * color;
      }
    }
    score := Open(game, hash, h, depth, alpha, beta, color, repr, shape, count, spots);
  }

  /**
   * A node the table does not answer: a position at depth 0, a finished game
   * or a side without moves is a leaf, and any other position is expanded.
   * Either way the node's score is stored under key h at `depth`.
   */
  method Open(game: Fianco, hash: Hash, h: int, depth: nat, alpha: int, beta: int, color: int, ghost repr: set<Piece>, ghost shape: GameShape, ghost count: int, ghost spots: map<Piece, Spot>)
    returns (score: int)
    requires Intact(game, repr, shape, count, spots) && (color == 1 || color == -1)
    modifies game`pieces, game`capturedWhite, game`capturedBlack, game`turn, game`ttable,
      game`pruneCount, game`nodesSearched, game`ttAccesses, repr
    decreases depth, 2
    ensures Intact(game, repr, shape, count, spots)
    ensures -count <= score <= count
    ensures Expanded(old(TallyOf(game)), TallyOf(game))
    ensures h in game.ttable && game.ttable[h] == (score * color, depth) && game.ttable[h].0 * color == score
    ensures (depth == 0 || old(game.turn.gameOver)) ==>
      && score == old(Evaluate(game.pieces)) * color
      && game.ttable == old(game.ttable)[h := (old(Evaluate(game.pieces)), depth)]
      && TallyOf(game) == old(TallyOf(game)).(nodes := old(game.nodesSearched) + 1)
  {
    if depth == 0 || game.turn.gameOver {
      score := Leaf(game, h, depth, color, repr, shape, count, spots);
      return;
    }
    var moves := GetAllPossibleMoves(game, game.turn.currentPlayer);
    if moves == [] {
      score := Leaf(game, h, depth, color, repr, shape, count, spots);
      return;
    }
    GeneratedPlayable(game.pieces, game.turn.currentPlayer);
    moves := OrderMoves(moves);
    score := Expand(game, hash, h, moves, depth, alpha, beta, color, repr, shape, count, spots);
  }

  /**
   * The expansion of a node below the root: it tries the ordered moves,
   * keeping the best negated child score, raises alpha, and stops at the
   * first cutoff (alpha >= beta), which it counts; the best score is stored
   * under key h from Player1's side at `depth`, overwriting any entry.
   */
  method Expand(game: Fianco, hash: Hash, h: int, moves: seq<Move>, depth: nat, alpha: int, beta: int,
                color: int, ghost repr: set<Piece>, ghost shape: GameShape, ghost count: int, ghost spots: map<Piece, Spot>)
    returns (score: int)
    requires Intact(game, repr, shape, count, spots) && (color == 1 || color == -1) && depth >= 1
    requires moves != []
    requires forall j | 0 <= j < |moves| :: PlayableIn(shape.live, moves[j])
    modifies game`pieces, game`capturedWhite, game`capturedBlack, game`turn, game`ttable,
      game`pruneCount, game`nodesSearched, game`ttAccesses, repr
    decreases depth, 1
    ensures Intact(game, repr, shape, count, spots)
    ensures -count <= score <= count
    ensures Expanded(old(TallyOf(game)), TallyOf(game))
    ensures h in game.ttable && game.ttable[h] == (score * color, depth)
    ensures game.ttable[h].0 * color == score
  {
    ghost var tally0 := TallyOf(game);
    var best, a := -Infinity, alpha;
    var i := 0;
    while i < |moves|
      invariant 0 <= i <= |moves|
      invariant Intact(game, repr, shape, count, spots)
      invariant best <= count && (i > 0 ==> -count <= best) && (i == 0 ==> best == -Infinity)
      invariant Within(tally0, TallyOf(game))
    {
      var s := Try(game, hash, moves[i], depth, a, beta, -color, repr, shape, count, spots);
      if s > best {
        best := s;
      }
      if best > a {
        a := best;
      }
      if a >= beta {
        Prune(game, repr, shape, count, spots);
        break;
      }
      i := i + 1;
    }
    var rawScore := if color == 1 then best else -best;
    assert rawScore == best * color && rawScore * color == best;
    Store(game, h, rawScore, depth, repr, shape, count, spots);
    score := best;
  }

  /**
   * The root of the search for the side to move: it tries the ordered moves
   * with the children searched from Player1's side (color 1) whoever moves,
   * keeps the first move with the highest negated score, and stops at the
   * first cutoff. It returns no move exactly when the side to move has none.
   */
  method NegamaxRoot(game: Fianco, hash: Hash, depth: nat, alpha: int, beta: int)
    returns (bestMove: Option<Move>)
    requires game.Valid() && game.ScoresBounded() && depth >= 1
    modifies game`pieces, game`capturedWhite, game`capturedBlack, game`turn, game`ttable,
      game`pruneCount, game`nodesSearched, game`ttAccesses, game.Repr()
    ensures game.Valid() && game.ScoresBounded()
    ensures game.Repr() == old(game.Repr()) && game.Shape() == old(game.Shape())
    ensures forall p | p in old(game.Repr()) :: SpotOf(p) == old(SpotOf(p))
    ensures bestMove.Some? ==> bestMove.value in old(PossibleMoves(game.pieces, game.turn.currentPlayer))
    ensures old(PossibleMoves(game.pieces, game.turn.currentPlayer)) == [] ==> bestMove.None?
    ensures (old(PossibleMoves(game.pieces, game.turn.currentPlayer)) != [] &&
             old(game.PieceCount()) < Infinity) ==> bestMove.Some?
  {
    ghost var repr, shape, count, spots := game.Repr(), game.Shape(), game.PieceCount(), Spots(game);
    assert forall p | p in repr :: allocated(p) && spots[p] == SpotOf(p);
    assert Intact(game, repr, shape, count, spots);
    var moves := RootMoves(game);
    assert Intact(game, repr, shape, count, spots);
    bestMove := RootLoop(game, hash, moves, depth, alpha, beta, repr, shape, count, spots);
  }

  /** The moves of the side to move, generated and then ordered. */
  method RootMoves(game: Fianco) returns (moves: seq<Move>)
    requires HasSquares(game.pieces)
    ensures forall j | 0 <= j < |moves| :: PlayableIn(multiset(game.pieces), moves[j])
    ensures forall m | m in moves :: m in old(PossibleMoves(game.pieces, game.turn.currentPlayer))
    ensures moves == [] <==> old(PossibleMoves(game.pieces, game.turn.currentPlayer)) == []
  {
    ghost var possible := PossibleMoves(game.pieces, game.turn.currentPlayer);
    var generated := GetAllPossibleMoves(game, game.turn.currentPlayer);
    assert generated == possible;
    GeneratedPlayable(game.pieces, game.turn.currentPlayer);
    OrderIsPermutation(generated);
    moves := OrderMoves(generated);
    assert |moves| == |multiset(moves)| == |multiset(generated)| == |generated|;
    assert forall m | m in moves :: m in multiset(moves);
  }

  /** The loop of the root over the ordered moves. */
  method RootLoop(game: Fianco, hash: Hash, moves: seq<Move>, depth: nat, alpha: int, beta: int,
                  ghost repr: set<Piece>, ghost shape: GameShape, ghost count: int,
                  ghost spots: map<Piece, Spot>)
    returns (bestMove: Option<Move>)
    requires Intact(game, repr, shape, count, spots) && depth >= 1
    requires forall j | 0 <= j < |moves| :: PlayableIn(shape.live, moves[j])
    modifies game`pieces, game`capturedWhite, game`capturedBlack, game`turn, game`ttable,
      game`pruneCount, game`nodesSearched, game`ttAccesses, repr
    ensures Intact(game, repr, shape, count, spots)
    ensures bestMove.Some? ==> bestMove.value in moves
    ensures moves == [] ==> bestMove.None?
    ensures moves != [] && count < Infinity ==> bestMove.Some?
  {
    var bestScore, a := -Infinity, alpha;
    bestMove := None;
    var i := 0;
    while i < |moves|
      invariant 0 <= i <= |moves|
      invariant Intact(game, repr, shape, count, spots)
      invariant bestMove.Some? ==> bestMove.value in moves
      invariant bestMove.None? ==> bestScore == -Infinity
      invariant i > 0 && count < Infinity ==> bestMove.Some?
      invariant bestScore <= count
    {
      var score := Try(game, hash, moves[i], depth, a, beta, 1, repr, shape, count, spots);
      if score > bestScore {
        bestScore := score;
        bestMove := Some(moves[i]);
      }
      if bestScore > a {
        a := bestScore;
      }
      if a >= beta {
        Prune(game, repr, shape, count, spots);
        break;
      }
      i := i + 1;
    }
  }
}
