# Fianco in Dafny

This project models the game engine of a Fianco program and proves properties of that model. Fianco is a two-player game on a 9×9 board:

- pieces step forward or sideways;
- they capture by jumping two rows diagonally forward over an enemy piece, and can chain captures;
- capturing is mandatory;
- a side wins by reaching the opposite baseline or when the other side has no piece left.

The program has two versions of the game object:

- the AI version (`fianco.py` with `ai.py`), which plays against a fixed-depth negamax search;
- the human-versus-human test version (`check.py`).

Both share the piece record and geometry of `board.py`.

Modules:

- `Wrappers`: the `Option` type.
- `Lists`: removing the first occurrence from a list (Python's `list.remove`), with lemmas.
- `Board` (`board.py`):
  - the constants and the two players;
  - the `Piece` class, whose row and column are `Option<int>` and whose pixel centre `x`/`y` is recomputed by `ResetPosition`.
- `Rules`: the read-only queries of the game class, which are the same text in `fianco.py` and `check.py`. They take the live piece list.
  - square lookup, move validation, the chain-capture test;
  - winner detection (baseline first, then depletion);
  - the list of capture moves and the starting layout;
  - the decision the click handler takes on a destination square.
- `Fianco` (`fianco.py`): the AI version's `Fianco` class. Its fields are the live list, the two captured lists, the turn attributes, the error message and the search bookkeeping. Its methods are:
  - `CreateInitialPieces`, `RemovePiece`, `MakeMove` (returns the undo record), `UnmakeMove`;
  - the human click handler.
- `Ai` (`ai.py`):
  - the two move generators, each as a loop-based method proved equal to a specification function;
  - material evaluation;
  - capture-first move ordering;
  - the clock-to-budget rule.
- `Search` (`ai.py`): `negamax_root` and `negamax`. The search makes and unmakes moves on the game class in place and writes the transposition table and the counters.
- `Check` (`check.py`): the test version's class. It differs from the AI version in these ways:
  - a captured piece gets row and column −1;
  - a move keeps no undo record;
  - a win opens the winner announcement;
  - its capture generator is its own two-jump loop.

Quirks of the code that the model reproduces:

- The search flips `current_player` after every `make_move`, including the ordinary case where `make_move` has already flipped it.
- The root always searches with `color = 1`.
- Table entries carry no bound flag and are overwritten unconditionally.
- `order_moves` ignores its depth argument.
- The test version's handler handles clicks for whichever side is to move.

## Model

| member | source | states |
|---|---|---|
| Lists.Remove | fianco.py:333-341 | `list.remove` of a member drops exactly one occurrence: the length falls by one and the multiset loses that element |
| Lists.RemoveDistinct | fianco.py:333-341 | removing from a duplicate-free list keeps it duplicate-free and leaves exactly the other elements |
| Lists.RemoveAppended | fianco.py:492-496 | removing an element just appended to a list that did not hold it gives the list back |
| Board.WindowSize | board.py:4-11 | WIDTH = 900 and HEIGHT = 710 follow from the board constants |
| Board.CenterInsideTile | board.py:34-37 | the pixel centre of every square lies strictly inside that square's tile |
| Board.Piece.constructor | board.py:21-27 | a new piece stores row, col, color and owner, and its x/y are already computed from them |
| Board.Piece.ResetPosition | board.py:34-41 | x/y become the cell centre when row and col are both present, and (−100, −100) when either is absent |
| Rules.PieceAt | fianco.py:319-323 | returns a live piece standing on (row, col), or none exactly when the square is empty |
| Rules.IsValidMove | fianco.py:343-379 | acceptance implies an in-bounds, empty destination; an accepted non-capture is a one-row forward or one-column sideways step; a capture is a two-row forward, two-column jump over an enemy piece on the middle square, which is the piece returned; a refusal returns no piece; conversely every such step is accepted without a capture and every such jump is accepted with the jumped piece; the vertical sign is +1 for Player1 and −1 for Player2 |
| Rules.HasAvailableCaptures | fianco.py:506-522 | true exactly when move validation accepts one of the piece's two forward jumps with a captured piece |
| Rules.CheckForWinFirst | fianco.py:381-387 | no winner exactly when no piece is on its target baseline; otherwise the winner owns the first piece in list order that is on its baseline |
| Rules.OwnedByExactly | fianco.py:389-396 | the comprehension `[p for p in pieces if p.owner == o]` keeps exactly the pieces of owner o |
| Rules.DepletionWinner | fianco.py:389-396 | Player2 wins when Player1 has no piece; Player1 wins when it has a piece and Player2 has none; there is no winner exactly when both sides have pieces |
| Rules.OutcomeWinner | fianco.py:456-458 | the end-of-move check declares no winner exactly when no piece is on its baseline and both sides have pieces; a piece on its baseline decides the game before depletion is consulted |
| Rules.PieceCapturesExactly | check.py:515-523 | the captures a piece generates are exactly its moves to an in-bounds forward jump square that validation accepts with a captured piece |
| Rules.OwnCapturesExactly | check.py:506-523 | for a live piece, the captures one iteration of the generator yields are exactly the legal captures of that piece for the given player, and none when the piece is the other side's or has a negative coordinate |
| Rules.CaptureMovesOfExactly | check.py:504-524 | after the first n pieces, the capture list holds exactly the legal captures by those pieces |
| Rules.CaptureMovesExactly | ai.py:8-34 | every listed capture is by a piece of `player` that is live with non-negative coordinates, has an in-bounds destination and is accepted by validation with a captured piece, and every such move is listed |
| Rules.HasAvailableCapturesInCaptureMoves | check.py:431-448 | for a live piece of non-negative coordinates, the chain-capture test holds exactly when the capture list of its owner contains a move of that piece |
| Rules.AvailableCaptureListed | check.py:431-448 | direction "test ⇒ listed" of the equivalence above, with the witness move |
| Rules.ListedCaptureAvailable | check.py:431-448 | direction "listed ⇒ test" of the equivalence above |
| Rules.InitialLayout | fianco.py:184-198 | the 30 starting squares are on the board; the first 15 are Player1's (row 0 plus (i, i) and (i, 8−i) for i = 1..3); Player2's are their row-mirror; no two share a square |
| Rules.InitialPieces | fianco.py:184-198 | creates 30 fresh, distinct pieces, each on its starting square with its owner, its owner's colour and its pixel centre computed |
| Rules.ClickOutcome | fianco.py:549-575 | a click off the board deselects; a click on an own piece reselects that piece, and one on an enemy piece is an invalid move; on an empty in-bounds square the move is played exactly when validation accepts it and either no capture exists or the move is itself a capture; a valid quiet move while a capture exists is refused as mandatory-capture; otherwise the move is invalid |
| Fianco.MouseInsideTile | fianco.py:325-331 | every pixel inside the tile of (row, col) maps back to (row, col) under floor division |
| Fianco.CenterRoundTrip | fianco.py:325-331 | the mouse position of a square's pixel centre is that square, which inverts `reset_position` |
| Fianco.AfterMove | fianco.py:456-472 | the game is over after the move exactly when a winner was found (or it already was); a winner sets the winner, its name and the game-over state; the side to move changes exactly when there is no winner and no continued capture; without a winner, the piece must continue capturing exactly when it captured and can capture again, and it stays selected exactly then (otherwise the selection is cleared) |
| Fianco.HitPiece | fianco.py:541-547 | the selected piece is a piece of the side to move whose disc contains the click, and there is none exactly when no such piece exists |
| Fianco.Fianco.constructor | fianco.py:34-73 | the initial attribute values: menu state, Player1 to move, empty lists, both clocks at 600000, empty table, zero counters, time limit 2000 |
| Fianco.Fianco.CreateInitialPieces | fianco.py:184-198 | the live list becomes the 30 starting pieces in creation order on their starting squares |
| Fianco.Fianco.RemovePiece | fianco.py:333-341 | the piece leaves the live list, is appended to captured_white (Player1) or captured_black (Player2), and gets no row, no column and pixel (−100, −100); no other piece changes |
| Fianco.Fianco.Conclude | fianco.py:456-472 | the turn attributes become `AfterMove` of the outcome on the new board and of "captured and can capture again" |
| Fianco.Fianco.MakeMove | fianco.py:429-475 | places the piece; removes a live captured piece; concludes the turn as `AfterMove` states; returns the record of the piece's and the captured piece's squares and of all turn attributes |
| Fianco.Fianco.UnmakeMove | fianco.py:481-504 | the moved piece returns to its recorded square; a captured piece returns to its square, is appended to the live list and leaves its captured list; every turn attribute takes its recorded value |
| Fianco.Fianco.Commit | fianco.py:566-567 | a played click makes the move and clears the error message |
| Fianco.Fianco.HandleClick | fianco.py:524-578 | outside a running game on the human's turn, nothing changes; with no selection, the hit piece of the side to move becomes the selection; otherwise the click's square is handled as `ClickOutcome` decides |
| Fianco.Fianco.ClickSquare | fianco.py:549-575 | the click decision is taken over the capture moves of the side to move; a mandatory-capture or invalid refusal leaves the pieces, lists and turn unchanged and shows its message |
| Fianco.Fianco.Carry | fianco.py:555-575 | each click decision has exactly the effect listed for it: reselect, deselect, one of the two messages, or the move |
| Ai.FiveOffsetsCaptures | ai.py:40-76 | the capture moves found over the five offsets of a side are exactly the piece's generated captures (only the two jumps can capture) |
| Ai.JumpOffsetsCaptures | ai.py:11-32 | the captures found over the two jump offsets, +2 column first, are the piece's generated captures |
| Ai.JumpOffsetsQuietNothing | ai.py:69-76 | the two jump offsets never yield a non-capture move |
| Ai.StepOffsetsQuiets | ai.py:40-76 | the quiet moves a piece generates come from its forward, right and left steps in that order |
| Ai.QuietsTowardExactly | ai.py:40-76 | the non-capture moves tried for a piece are exactly its in-bounds steps that validation accepts without a capture |
| Ai.OwnQuietsExactly | ai.py:57-76 | one generator iteration yields exactly the piece's legal non-capture moves for the player |
| Ai.QuietMovesOfExactly | ai.py:57-76 | after the first n pieces, the non-capture list holds exactly the legal non-captures by those pieces |
| Ai.PossibleMovesExactly | ai.py:36-82 | a move is generated exactly when it is legal for the side, and it is a capture if any legal capture exists and a non-capture otherwise |
| Ai.PieceMoves | ai.py:69-76 | the loop over a piece's candidate offsets yields the captures and non-captures of the specification, in offset order |
| Ai.GetAllPossibleCaptureMoves | ai.py:8-34 | the loop returns exactly the specification's capture list |
| Ai.OwnCaptures | ai.py:16-32 | a piece's iteration yields its captures if it is the player's and live with non-negative coordinates, otherwise nothing |
| Ai.GetAllPossibleMoves | ai.py:36-82 | the loop returns the specification's move list: captures if any, otherwise non-captures |
| Ai.CollectMoves | ai.py:57-76 | the loop over all pieces builds both the capture list and the non-capture list |
| Ai.OwnMoves | ai.py:57-76 | a piece's iteration yields its captures and non-captures if it is the player's and live, otherwise nothing |
| Ai.Evaluate | ai.py:84-88 | the material score lies between −len(pieces) and len(pieces) |
| Ai.MaterialBalance | ai.py:84-88 | the score equals the number of on-board Player1 pieces minus the number of on-board Player2 pieces |
| Ai.FiltersKeep | ai.py:90-99 | the capture part holds exactly the input's captures, and the normal part exactly its non-captures |
| Ai.OrderIsPermutation | ai.py:90-99 | the ordered list is a permutation of the input |
| Ai.CapturesFirst | ai.py:90-99 | every capture precedes every non-capture in the ordered list |
| Ai.FiltersAppend | ai.py:93-98 | splitting the input splits each part the same way |
| Ai.CapturesStable | ai.py:93-99 | two captures at input positions i < j appear in the capture part in that order, each right after the captures that precede it in the input |
| Ai.QuietsStable | ai.py:93-99 | the same for two non-captures in the normal part |
| Ai.OrderMoves | ai.py:90-99 | the loop returns the captures followed by the non-captures |
| Ai.TimeBudget | ai.py:101-106 | 5000 from 60000 ms remaining up; below that, at least 2000 and at least remaining // 20, and above 2000 only when it is remaining // 20 (so exactly max(2000, remaining // 20)), within [2000, 3000) |
| Ai.UpdateAiTimeLimit | ai.py:101-106 | the AI's time limit becomes the budget for the AI side's remaining clock |
| Search.PassTurn | ai.py:137 | the extra flip after `make_move` changes only the side to move |
| Search.MakeForSearch | ai.py:136 | `make_move(move, store_previous_state=True)` inside the search: a captured piece leaves the live list for its owner's captured list, no piece but the moved and the captured one changes, and the record holds both pieces' old squares and the old turn attributes |
| Search.Advance | ai.py:136-137 | the search's make step followed by the extra flip of the side to move; the counters are untouched |
| Search.UnmakeForSearch | ai.py:140 | unmaking restores both pieces' squares, the live and captured lists (the revived piece at the end), and the turn attributes, and changes no other piece |
| Search.RestoredLists | fianco.py:492-496 | make followed by unmake gives back the captured lists exactly and the live list as a multiset |
| Search.Access | ai.py:155-156 | the probe counts one table access and changes nothing else |
| Search.Prune | ai.py:148-149 | a cutoff adds one to the prune count and changes nothing else |
| Search.Store | ai.py:167 | the table maps the key to (score, depth), overwriting any previous entry |
| Search.Leaf | ai.py:163-168 | a leaf counts one node and stores (evaluation, depth); its score is the evaluation times color |
| Search.Try | ai.py:180-185 | one child of a node: the move is made, the turn flipped, the child is searched with the window negated and the move is unmade; the state is intact afterwards and the score is bounded by the piece count |
| Search.Negamax | ai.py:153-197 | afterwards the pieces' squares, the live list as a multiset, the captured lists and all turn attributes are as at the call; a hit on an entry at least as deep answers stored score × color and changes only the access count; a depth-0 or game-over node stores and returns the evaluation; otherwise the key maps to (score in Player1's view, depth); the score is bounded by the piece count |
| Search.Node | ai.py:158-175 | the probe answers from an entry of sufficient depth; otherwise the node is opened and its entry written |
| Search.Open | ai.py:163-177 | at depth 0 or in a finished game the node counts one node and stores and returns the evaluation; in every case the key maps to (score in Player1's view, depth) afterwards |
| Search.Expand | ai.py:177-197 | the best child score (a cutoff counted once) is stored in Player1's view at the node's depth and returned |
| Search.NegamaxRoot | ai.py:128-151 | the game is restored afterwards; the move returned is one of the generated moves; none is returned exactly when the generator yields none (given fewer than 999999 pieces) |
| Search.RootMoves | ai.py:129-130 | every root move is one of the generated moves, and there are none exactly when the generator yields none |
| Search.RootLoop | ai.py:135-151 | the best move returned is one of the given moves; none is returned for an empty list, and, when there are fewer than 999999 pieces, a move is returned for a non-empty one, since every score then exceeds −999999 |
| Check.Concluded | check.py:411-429 | as `AfterMove`, but a winner sets the winner-announcement state |
| Check.ConcludedAsEngine | check.py:411-429 | the test version's turn update equals the AI version's except for the state a win sets |
| Check.Fianco.GetAllPossibleCaptureMoves | check.py:504-524 | the loop returns exactly the capture list of the rules |
| Check.AddOwnCaptures | check.py:506-523 | one loop iteration appends the current piece's captures |
| Check.OwnCaptures | check.py:506-523 | a piece's iteration yields its captures if it is the player's and has non-negative coordinates, otherwise nothing |
| Check.JumpCaptures | check.py:515-523 | the `for dc in [2, -2]` loop yields the piece's generated captures, +2 before −2 |
| Check.Fianco.constructor | check.py:28-56 | the test version's initial attribute values |
| Check.Fianco.CreateInitialPieces | check.py:163-177 | the same 30-piece, distinct-square layout as the AI version |
| Check.Fianco.RemovePiece | check.py:310-319 | the piece leaves the live list and joins its owner's captured list, with row and column −1 and pixel (50, 20), not the off-board pixel |
| Check.Fianco.Conclude | check.py:411-429 | the turn attributes become `Concluded` of the outcome on the new board |
| Check.Fianco.MakeMove | check.py:402-429 | the board effect of the move, then the test version's turn update |
| Check.Fianco.MoveBoard | check.py:402-409 | the piece is placed and a live captured piece is removed |
| Check.Fianco.HandleClick | check.py:450-502 | as the AI version's handler, for whichever side is to move |
| Check.Fianco.ClickSquare | check.py:473-498 | a valid non-capture click while any capture exists is refused with 'Capture is mandatory!' and the board is unchanged; other decisions as `ClickOutcome` |
| Check.Fianco.Carry | check.py:479-498 | each click decision has exactly the effect listed for it |

## Left out

- Rendering, fonts, buttons, menus, overlays, the frame loops and the chess clocks (`ui.py`, `main.py`, the `draw_*` methods, `check.py:526-596`): presentation and wall-clock driven. The clocks appear only as the `playerTimes` map the time budget reads.
- The restart, menu and colour-selection buttons and `reset_game`: button callbacks, not part of the rules.
- `make_ai_move` (timing, prints, the call to `negamax_root` with depth 5) and the AI trigger at the end of `make_move`: they depend on `time.time()` and output.
- The `pygame.time.get_ticks()` stamps `error_start_time` and `winner_announce_start`, which only schedule drawing.
- Zobrist hashing: `get_board_hash` and its tables are imported by `ai.py` from a module that does not define them. The key is a parameter `hash` of the piece placement.
- numpy: the offset arrays become integer pairs, `piece.position` is read as (row, col), and `int8` arithmetic is plain integers. The material sum has at most 30 terms, so `int8` cannot overflow.
- The disc hit-test uses a float `sqrt`. `HitPiece` compares squared distances, which gives the same answer for integer pixels.
- Search.NegamaxRoot: requires `depth >= 1` (the program always passes 5). At depth 0 the source would pass −1 to `negamax`, whose `depth == 0` test never fires, so only a table hit (every stored depth is at least a negative depth), the end of the game or a side without moves would stop it.
- Search.NegamaxRoot: proves a move is returned if moves exist only when there are fewer than 999999 pieces; the score bound needs this, and real boards have 30.
- Rules.InitialPieces: the pieces are built in a local list that `CreateInitialPieces` of each version assigns to `pieces` at once; the source appends to `self.pieces` one piece at a time, which nothing observes in between.
- The killer-move table is declared in `__init__` and cleared by `reset_game` but never read; the model has no such field. Iterative deepening and bound flags in the table are absent from the code. `iterative_time_limit` is written by the budget rule and never read.
- Fianco.Fianco.Commit: the message is cleared just before the move rather than after it. The move neither reads nor writes the message, so the final state is the same; a following `if self.game_over: return` has no effect.
- Concurrency and event queues: the event is given to the handler as a click position.
