# Chess rules and bot search of game.js, in Dafny

This project models the rules-and-search engine inside `game.js`, a browser chess game against a bot. The modelled parts are:

- the position and its start state;
- move application;
- geometric move generation for every piece kind, including pawn pushes, captures, en passant and promotion to a queen;
- the attack and check oracle;
- castling;
- legal-move generation;
- the classification of a position as in play, checkmate or stalemate;
- the capture-first move ordering;
- the static evaluation;
- the fixed-depth minimax search with alpha-beta pruning;
- the bot's move choice at each of the ten difficulty levels.

Rows are 0..7, with row 0 Black's home rank and row 7 White's.

Positions are immutable datatypes, as in the source, which copies a position before editing it. Each piece of source logic that works by looping is a `method` with the same loops. It is proved equal to a pure function, and the properties are proved as lemmas about that function:

- `GenerateLegalMoves`, `GeneratePseudoMoves` with its ray walks and offset loops;
- `IsSquareAttacked` and `IsInCheck`;
- `EvaluatePosition`;
- `MinimaxSearch` with its move loops;
- `ChooseBotMove`.

Modules, in dependency order:

- `Board`: pieces, squares, moves, the position, `InBounds`, `Opposite`, `PieceValue` (PIECE_VALUE), `KnightDeltas` and `KingDeltas` (KNIGHT_DELTAS, KING_DELTAS), `CanCastle`, and the start position.
- `Apply`: `ApplyMove` and its frame and counter properties.
- `Geometry`: `pushTarget`, knight and king offsets, sliding rays, pawn rules; `generatePseudoMoves` without castling.
- `Attack`: `isSquareAttacked`, `isInCheck`.
- `Legality`:
  - castling and the full pseudo-move generator;
  - `generateLegalMoves`;
  - the checkmate and stalemate classification of `evaluateTerminalState`;
  - play along a move sequence.
- `Evaluation`: `evaluatePosition`, with its colour symmetry.
- `Sorting`: the stable descending sort that `Array.prototype.sort` performs with a `b - a` comparator.
- `GameTree`: plain minimax and alpha-beta on an abstract game tree. Alpha-beta from the full window is proved equal to minimax.
- `Search`:
  - `moveScore` and `orderMoves`;
  - the game tree of a position;
  - `minimax`, proved to walk that tree.
- `Bot`: the DIFFICULTY table (depth, top pool, blunder chance) and `chooseBotMove`.

## Model

| member | source | states |
|---|---|---|
| Board.Opposite | game.js:1050-1052 | The opposite colour is never the colour given; with two colours it is the other one. |
| Board.PieceValuesRanked | game.js:28-35 | The PIECE_VALUE table ranks the kinds strictly: pawn, knight, bishop, rook, queen, king. The king's value exceeds the most material one side could ever field: nine queens plus two each of rooks, bishops and knights. |
| Board.InBoundsIndexes | game.js:1046-1048 | inBounds holds exactly for the row and column indices the 8x8 board has. |
| Board.KnightDeltasShape | game.js:50-59 | KNIGHT_DELTAS holds eight distinct offsets: exactly the L-shaped jumps of one row and two columns, or two rows and one column. |
| Board.KingDeltasShape | game.js:61-70 | KING_DELTAS holds eight distinct offsets: exactly the non-zero steps of at most one row and one column. |
| Board.CanCastle | game.js:845-847 | True exactly when the castling flag of that colour and flank is set. |
| Board.InitialPosition | game.js:246-264 | White to move, all four castling rights, no en-passant target, halfmove 0, fullmove 1. Both back ranks read R N B Q K B N R, with the kings on column 4; pawns fill rows 1 and 6; rows 2 to 5 are empty. |
| Apply.RevokeRights | game.js:903-920 | Never grants a right. A king landing clears both rights of its colour. A move from or to a rook's home corner clears that corner's right. Every other right is kept. |
| Apply.ApplyMove | game.js:849-923 | The turn flips. Fullmove grows by 1 only after Black's move. Castling rights are only ever lost. The new rights are exactly RevokeRights of the landing piece and the move's two squares, so a king move clears its colour's rights and a move from or to a rook's home corner clears that corner's right. Halfmove becomes 0 after a pawn move or a capture and grows by 1 otherwise. An en-passant target is set iff a pawn advanced two rows: on the row between, in the origin's column, with the mover's colour. The destination holds the moved piece, or the promoted piece of the mover's colour. |
| Apply.ApplyMoveBoard | game.js:851-901 | The origin is emptied. On en passant, the victim beside the origin is removed. On castling, the rook goes from column 7 to 5 or from 0 to 3. Every other square is unchanged. |
| Geometry.PushTarget | game.js:790-798 | The moves already collected are kept as they are. The plain move to the target is added iff the target is on the board and not held by the mover's side. |
| Geometry.DeltaMoves | game.js:712-722 | The knight and king steps, pushed through pushTarget: exactly the offsets whose target is on the board and not held by the mover's side, each as a plain move. |
| Geometry.Ray | game.js:769-785 | Every move of a ray is a plain move from the piece to an on-board square not held by its own side. |
| Geometry.RayShape | game.js:770-784 | A ray starts next to the piece, goes on square by square along its direction, and passes only over empty squares. An empty ray means the first square is off the board or held by the mover's side. |
| Geometry.RayEnd | game.js:772-781 | A ray stops at the first occupied square: if its last square is empty, the next square along the line is off the board or held by the mover's side. |
| Geometry.SlideMoves | game.js:751-787 | Every move of a bishop, rook or queen lands on an on-board square not held by its own side. |
| Geometry.PawnPushes | game.js:665-677 | Every push goes straight ahead onto an empty square. A double push is made only from the start row, over an empty square. A push to the far rank promotes to a queen, and no other push promotes. |
| Geometry.PawnCapture | game.js:679-708 | Every diagonal move is a capture of an enemy piece, or an en-passant capture onto the current target left by an enemy pawn. The latter is never made in attacks-only mode. A capture onto the far rank promotes to a queen. An en-passant capture never promotes. |
| Geometry.PawnMoves | game.js:665-710 | Every pawn move obeys the pawn rules above, with promotion to a queen exactly on a far-rank move that is not en passant. |
| Geometry.PawnMovesComplete | game.js:665-710 | Every move the pawn rules allow is generated: a push, a double push, a capture, or an en-passant capture, with the promotion those rules fix. |
| Geometry.PawnMovesMeaning | game.js:665-710 | A pawn's generated moves are exactly the moves the pawn rules allow. |
| Geometry.StepMoves | game.js:655-788 | An empty square has no moves. Every move starts on the square, lands on the board and is not a castling move. It lands on a square not held by its own side, except an en-passant capture, which lands on the enemy pawn's target. Only pawns promote, and only to a queen. A two-row pawn move goes straight over two empty squares. For a pawn, the moves are exactly those the pawn rules allow, so every far-rank move that is not en passant promotes to a queen. |
| Geometry.GeneratePawnMoves | game.js:665-710 | The push-then-capture-loop code returns exactly PawnMoves. |
| Geometry.GeneratePawnCapture | game.js:679-708 | One turn of the capture loop returns exactly PawnCapture for that diagonal. |
| Geometry.GenerateDeltaMoves | game.js:712-722 | The offset loop returns exactly DeltaMoves. |
| Geometry.WalkRay | game.js:769-785 | The ray-walking while loop returns exactly Ray. |
| Geometry.GenerateSlideMoves | game.js:769-785 | The loop over line directions returns exactly SlideMoves. |
| Geometry.GenerateStepMoves | game.js:655-788 | The dispatch on piece kind returns exactly StepMoves. |
| Attack.FindKing | game.js:833-843 | Finds the first square in row-by-row order holding the king of the colour, or reports that none is there. |
| Attack.InCheckMeaning | game.js:833-843 | A side with no king is never in check. A side in check has a king standing on an attacked square. |
| Attack.IsSquareAttacked | game.js:800-831 | Returns exactly whether some piece of the attacker attacks the square: a pawn diagonally forward, a king on any of the nine squares around and including its own, any other piece by one of its attacks-only moves. |
| Attack.IsInCheck | game.js:833-843 | Returns exactly InCheck: the attack test on the first king of the colour, and false without one. |
| Legality.PseudoMoves | game.js:655-788 | Every pseudo-move starts on the given square and lies on the board. |
| Legality.CastlingRule | game.js:724-746 | A castling move is produced iff all of these hold: a king of the colour stands on column 4 of its home row; its side is not in check; the right is unrevoked; the squares between king and rook (5-6, or 1-3) are empty; the squares 5-6, or 2-3, are not attacked; and not attacks-only. The move is then the king's two-column step. |
| Legality.PseudoMovesLandOpen | game.js:655-798 | No pseudo-move of any piece, castling and en passant included, lands on a square held by its own side. Requires the en-passant target to be empty. |
| Legality.ApplyKeepsEnPassantVacant | game.js:882-891 | After a pseudo-move, the en-passant target, if any, is an empty square. |
| Legality.SafeMovesMeaning | game.js:643-650 | The filter keeps exactly the moves after which the mover's king is not in check. |
| Legality.MovesFromMeaning | game.js:636-650 | The moves kept for one square are exactly the legal moves starting there. |
| Legality.LegalBeforeMeaning | game.js:635-653 | The scan up to a square yields exactly the legal moves starting on earlier squares. |
| Legality.LegalMoves | game.js:635-653 | Every generated legal move lies on the board. |
| Legality.LegalMovesMeaning | game.js:635-653 | Soundness and completeness: a move is generated iff it starts on a piece of the colour, is one of that piece's pseudo-moves, and does not leave the colour's king in check. |
| Legality.GenerateCastlingMoves | game.js:724-746 | The castling code returns exactly CastlingMoves. |
| Legality.GeneratePseudoMoves | game.js:655-788 | generatePseudoMoves returns exactly PseudoMoves. |
| Legality.FilterSafe | game.js:643-649 | The filter loop returns exactly SafeMoves. |
| Legality.GenerateLegalMoves | game.js:635-653 | generateLegalMoves returns exactly LegalMoves. |
| Legality.Classify | game.js:457-473 | In play iff the side to move has a legal move. Checkmate iff it has none and is in check, and then the other side wins. Stalemate iff it has none and is not in check. |
| Legality.PlayKeeps | game.js:849-923 | Along any sequence of legal moves, castling rights are never regained and an empty en-passant target stays empty. |
| Legality.InitialEnPassantVacant | game.js:246-264 | Every position reached by legal play from the start has an empty en-passant target. |
| Evaluation.EvaluationZeroSum | game.js:595-633 | The evaluation for White is minus that for Black. A checkmated side to move scores -100000. A stalemate scores 0. |
| Evaluation.StaticScoreMirror | game.js:603-626 | Reversing the rows and swapping the colours negates the material-and-bonus score. |
| Evaluation.InitialSelfMirror | game.js:246-264 | The start position is its own mirror image. |
| Evaluation.SelfMirrorBalanced | game.js:603-626 | A board that is its own mirror image has static score 0. |
| Evaluation.InitialBalanced | game.js:603-626 | The start position has static score 0. |
| Evaluation.EvaluatePosition | game.js:595-633 | The evaluation loop returns exactly Evaluate: the mate or stalemate score when terminal; otherwise material, bonuses, bishop pair and two points per legal move, signed for the perspective. |
| Sorting.SortDesc | game.js:528 | The sort is a permutation of its input. |
| Sorting.SortDescSorted | game.js:528 | The sorted keys never increase. |
| Sorting.SortStable | game.js:528 | The sort is stable: elements with equal keys keep their input order. |
| Sorting.SortHeadBest | game.js:528 | The first element has the largest key. |
| Sorting.SortHeadEarliest | game.js:528 | The first element is the earliest input element with its key. |
| Search.MoveScore | game.js:576-593 | A capture by any piece but the king scores above 0. A non-capture scores between 0 and 845. A non-capture that neither promotes nor castles scores 0. |
| Search.LegalScorable | game.js:576-593 | Every legal move has a piece on its origin, so moveScore can score it. |
| Search.MoveScoreRanks | game.js:576-593 | MVV-LVA ranking, three cases. With the same attacker, a more valuable victim scores higher. On the same victim, a cheaper attacker scores higher. A non-king capture scores above a quiet move. |
| Search.OrderMoves | game.js:572-574 | The ordering is a permutation of the moves. |
| Search.OrderMovesPermutes | game.js:572-574 | The ordering keeps exactly the moves it was given. |
| Search.OrderMovesSorted | game.js:572-574 | The ordered moves have non-increasing moveScore. |
| Search.OrderMovesStable | game.js:572-574 | Moves of equal moveScore keep their generation order. |
| Search.SearchTreeNode | game.js:546-569 | A searched node has one subtree per legal move, in moveScore order. Each subtree is the tree of the position that move leads to, one ply shallower. The node maximises on the bot's own turn. |
| Search.SearchTreeProper | game.js:541-544 | Every inner node of a position's tree has a subtree: a node is made only when a legal move exists. |
| Search.SearchIsMinimax | game.js:540-570 | From the full window (-Infinity, +Infinity), the pruned search returns exactly the plain minimax value, and that value is finite. |
| Search.MinimaxLeaf | game.js:541-544 | With depth 0 or less, the search returns the evaluation. With no legal move it returns -100000 or +100000 when the side to move is in check, for the bot's own side or the other, and 0 otherwise. |
| Search.MinimaxIsBestChild | game.js:546-569 | On the bot's turn, the value is at least every legal move's child value. On the opponent's turn, it is at most every one. Some legal move attains it. |
| Search.MinimaxSearch | game.js:540-570 | minimax returns exactly alpha-beta on the position's tree, for any window. |
| Search.MaximizeOver | game.js:547-558 | The maximising move loop, with the alpha update and the beta <= alpha cut-off, returns exactly alpha-beta at that node. |
| Search.MinimizeOver | game.js:560-569 | The minimising move loop, with the beta update and the cut-off, returns exactly alpha-beta at that node. |
| Search.SearchChild | game.js:550 | The recursive call on the i-th ordered move returns alpha-beta on the node's i-th subtree. |
| GameTree.AlphaBetaClamp | game.js:540-570 | For alpha < beta, alpha-beta and minimax agree once both are clamped to [alpha, beta]. |
| GameTree.AlphaBetaIsMinimax | game.js:540-570 | From the full window, alpha-beta returns the minimax value, so pruning never changes the result. |
| Bot.LevelsStrengthen | game.js:37-48 | The table has ten levels. Depth never decreases and blunder chance never increases from one level to the next. Every top pool is at least 1. Every blunder chance lies in [0, 1). Very Easy searches to depth 0. Master searches to depth 3 with a top pool of 1 and no blunders. |
| Bot.LevelIndex | game.js:517 | Difficulty d in 1..10 selects row d-1. Lower settings select row 0 and higher ones row 9. |
| Bot.Scale | game.js:519 | Math.floor(r * k) for r in [0, 1) is an index below k. |
| Bot.ScaleHits | game.js:519 | Every index k < n is produced by some draw. |
| Bot.BlunderStart | game.js:531 | The blunder range starts at floor(0.45 n), which lies below n. |
| Bot.PickIndex | game.js:530-537 | The picked index is below n. On a blunder with more than 2 candidates it lies in [floor(0.45 n), n). Otherwise it lies in [0, min(topPool, n)). |
| Bot.ScoreAllAt | game.js:522-526 | The scoring is a map: entry i is move i with its score. |
| Bot.Rank | game.js:528 | The ranking is a permutation of the scored moves. |
| Bot.RankMeaning | game.js:522-528 | The ranking holds every move once, with its own score, and scores never increase down the ranking. |
| Bot.RankFirstIsBest | game.js:528 | The top-ranked move's score is at least that of every move. |
| Bot.RankFirstIsEarliest | game.js:528 | The top-ranked move is the earliest move, in generation order, with its score. |
| Bot.MoveValueIsMinimax | game.js:522-526 | A move's score is exactly the plain minimax value, one ply shallower, of the position it leads to. |
| Bot.BotChoiceLegal | game.js:511-538 | The bot returns none iff it has no legal move. Otherwise it returns a legal move. |
| Bot.VeryEasyReachesAll | game.js:518-520 | At depth 0, every legal move is played for some draw. |
| Bot.MasterPlaysBest | game.js:536-537 | The Master level, with no blunders and a top pool of 1, plays a move whose depth-3 score no legal move beats. |
| Bot.MasterIgnoresDraws | game.js:530-537 | The Master level's choice does not depend on the random draws. |
| Bot.MasterBreaksTies | game.js:528-537 | Among the best-scoring legal moves, the Master level plays the one generated first. |
| Bot.ChooseBotMove | game.js:511-538 | chooseBotMove returns exactly BotChoice. |
| Bot.ScoreEach | game.js:522-526 | The map over the legal moves returns exactly the scored list. |
| Bot.ScoreMove | game.js:523-525 | One scored entry is the move with its full-window search value. |

## Left out

- The browser side of `game.js` is not part of this model: DOM lookups, rendering, pointer and drag handling, fullscreen, the difficulty display, `render_game_to_text`, the animation-frame loop and the bot's timing. These are I/O and wall-clock scheduling with no engine logic.
- The session `state` object and its updates are not part of this model: starting a game, resetting, forfeiting, `playMove`, and the message strings of `evaluateTerminalState`. Only the checkmate and stalemate classification is modelled, as `Classify`. `Play` stands in for a game as a sequence of legal moves.
- `Math.random` is not modelled. Each call is a parameter with a value in [0, 1): `draw1` for the blunder test, or for the single draw at depth 0, and `draw2` for the index.
- The bot's side and difficulty are parameters rather than fields of `state`.
- All scores are exact reals rather than IEEE doubles. The 0.45 damping factor is therefore exact. Rounding that could reorder two nearly equal scores in the source is not captured.
- The search's -Infinity and +Infinity are the constructors `NegInf` and `PosInf` of a bound type.
- Bot.BlunderStart: computes floor(45n/100) exactly rather than `Math.floor(n * 0.45)` in floating point. The two agree for every list length below 2^40. When 45n/100 is not an integer, it lies at least 0.05 from one, far more than the rounding error. When n is a multiple of 20, 45n/100 is an integer, and the double nearest 0.45 lies slightly above 0.45, so the product rounds to that integer or just above it and the floor is still exactly 9n/20.
- The blunder range starts at 45% of the move count rounded down, as game.js:531 computes it.
- Apply.ApplyMove: requires both squares of the move to be on the board. The source would fail on an off-board index, and every generated move satisfies this.
- Legality.PseudoMovesLandOpen: holds only when the en-passant target is an empty square. The source does not check this for arbitrary positions. `InitialEnPassantVacant` shows it holds in every position reached by legal play from the start.
- Moves carry `castle: Option<Flank>` in place of the source's `isCastle` and `castleSide` pair. A source move marked `isCastle` without a `castleSide` would castle queenside; the generator never makes one.
- Pieces are a datatype rather than two-letter strings, and the board is a checked 8x8 grid. Malformed boards or piece codes, which the source could be handed, are not represented.
- Halfmove and fullmove counters are unbounded integers. They never approach the source's 2^53 limit of exact integers.
- The search is specified on an explicit game tree (`SearchTree`). The source's `minimax` loop is modelled as `MinimaxSearch` with three helpers:
  - `MaximizeOver` and `MinimizeOver` for the two move loops;
  - `SearchChild` for the recursive call.
- Plain minimax is taken over the same tree, with moves in heuristic order. `MinimaxIsBestChild` states its value in terms of the legal moves alone, so the ordering affects only the pruning.
- The start position's 20 legal moves are not proved.
