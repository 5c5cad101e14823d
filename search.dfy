// The bot's search in game.js: capture-first move ordering and a depth-limited
// minimax with alpha-beta pruning, run over the game tree of a position (a
// node per position, a subtree per legal move in heuristic order, a leaf where
// the depth runs out or no move is left). The search is proved to return the
// plain minimax value when it starts from the full window.

module Search {
  import opened Board
  import opened Apply
  import opened Attack
  import opened Legality
  import opened Evaluation
  import opened Sorting
  import opened GameTree

  /** The piece a move would capture, read before the move: beside the origin for en passant. */
  function Victim(p: Position, m: Move): Cell
    requires MoveInBounds(m)
  {
    if m.isEnPassant then At(p.board, m.from.row, m.to.col) else At(p.board, m.to.row, m.to.col)
  }

  /** What the ordering heuristic needs: a mover on the origin whenever there is a victim. */
  predicate Scorable(p: Position, m: Move)
  {
    MoveInBounds(m) && (Victim(p, m).Some? ==> At(p.board, m.from.row, m.from.col).Some?)
  }

  /**
   * The ordering heuristic: twelve times the victim's value less the
   * attacker's, 800 for a promotion and 45 for castling.
   */
  function MoveScore(p: Position, m: Move): (score: int)
    requires Scorable(p, m)
    ensures Victim(p, m).Some? && At(p.board, m.from.row, m.from.col).value.kind != King ==> score > 0
    ensures Victim(p, m).None? ==> 0 <= score <= 845
    ensures Victim(p, m).None? && m.promotion.None? && m.castle.None? ==> score == 0
  {
    var victim := Victim(p, m);
    (if victim.Some? then PieceValue(victim.value.kind) * 12 - PieceValue(At(p.board, m.from.row, m.from.col).value.kind) else 0)
    + (if m.promotion.Some? then 800 else 0)
    + (if m.castle.Some? then 45 else 0)
  }

  /** The heuristic as a sort key; moves it cannot score (none of them generated) get 0. */
  function MoveKey(p: Position): Move -> real
  {
    m => if Scorable(p, m) then MoveScore(p, m) as real else 0.0
  }

  /** Every generated move has a mover on its origin, so the heuristic can score it. */
  lemma LegalScorable(p: Position, color: Color, m: Move)
    requires m in LegalMoves(p, color)
    ensures Scorable(p, m)
  {
    LegalMovesMeaning(p, color);
  }

  /**
   * How the heuristic ranks moves: by the same attacker a more valuable
   * victim comes first, on the same victim a cheaper attacker comes first,
   * and a capture by any piece but the king comes before a quiet move that
   * neither promotes nor castles.
   */
  lemma MoveScoreRanks(p: Position, m1: Move, m2: Move)
    requires Scorable(p, m1) && Scorable(p, m2)
    requires m1.promotion == m2.promotion == None && m1.castle == m2.castle
    ensures var a1 := At(p.board, m1.from.row, m1.from.col);
            var a2 := At(p.board, m2.from.row, m2.from.col);
            Victim(p, m1).Some? && Victim(p, m2).Some? && a1 == a2
            && PieceValue(Victim(p, m1).value.kind) > PieceValue(Victim(p, m2).value.kind)
            ==> MoveScore(p, m1) > MoveScore(p, m2)
    ensures var a1 := At(p.board, m1.from.row, m1.from.col);
            var a2 := At(p.board, m2.from.row, m2.from.col);
            Victim(p, m1).Some? && Victim(p, m1) == Victim(p, m2)
            && a1.Some? && a2.Some? && PieceValue(a1.value.kind) < PieceValue(a2.value.kind)
            ==> MoveScore(p, m1) > MoveScore(p, m2)
    ensures Victim(p, m1).Some? && At(p.board, m1.from.row, m1.from.col).value.kind != King
            && Victim(p, m2).None? && m1.castle.None?
            ==> MoveScore(p, m1) > MoveScore(p, m2)
  {
  }

  /** The moves in descending heuristic order, equal scores in generation order. */
  function OrderMoves(p: Position, moves: seq<Move>): (ordered: seq<Move>)
    ensures multiset(ordered) == multiset(moves)
  {
    SortDesc(moves, MoveKey(p))
  }

  /** The ordering keeps exactly the moves it was given. */
  lemma OrderMovesPermutes(p: Position, moves: seq<Move>)
    ensures forall m :: m in OrderMoves(p, moves) <==> m in moves
  {
    assert forall m :: m in OrderMoves(p, moves) <==> m in multiset(moves);
  }

  /** The heuristic scores of the ordered moves never increase. */
  lemma OrderMovesSorted(p: Position, moves: seq<Move>)
    ensures forall i, j | 0 <= i < j < |OrderMoves(p, moves)| ::
              MoveKey(p)(OrderMoves(p, moves)[i]) >= MoveKey(p)(OrderMoves(p, moves)[j])
  {
    SortDescSorted(moves, MoveKey(p));
    SortedPairwise(SortDesc(moves, MoveKey(p)), MoveKey(p));
  }

  /** Moves with equal heuristic scores keep their generation order. */
  lemma OrderMovesStable(p: Position, moves: seq<Move>, k: real)
    ensures WithKey(OrderMoves(p, moves), MoveKey(p), k) == WithKey(moves, MoveKey(p), k)
  {
    SortStable(moves, MoveKey(p), k);
  }

  /**
   * The game tree the search of the source walks from `p`, `depth` plies
   * deep, scored for the side `me`: a leaf with the evaluation where the
   * depth is exhausted or no legal move is left, otherwise a node that
   * maximises on `me`'s turn, with a subtree per legal move in heuristic order.
   */
  function SearchTree(p: Position, depth: int, me: Color): Tree
    // `p` ends the measure only so that the tree is not unfolded whenever the depth is a literal
    decreases depth, 1, 0, p
  {
    var legal := LegalMoves(p, p.turn);
    if depth <= 0 || legal == [] then Leaf(Evaluate(p, me, legal == []))
    else
      var ordered := OrderMoves(p, legal);
      OrderMovesPermutes(p, legal);
      Node(p.turn == me, Subtrees(p, depth - 1, ordered, me))
  }

  /** The trees, `depth` plies deep, of the positions the moves `ms` lead to, in order. */
  function Subtrees(p: Position, depth: int, ms: seq<Move>, me: Color): seq<Tree>
    requires 0 <= depth && AllInBounds(ms)
    decreases depth + 1, 0, |ms|
  {
    if ms == [] then [] else [SearchTree(ApplyMove(p, ms[0]), depth, me)] + Subtrees(p, depth, ms[1..], me)
  }

  lemma {:induction false} SubtreesAt(p: Position, depth: int, ms: seq<Move>, me: Color)
    requires 0 <= depth && AllInBounds(ms)
    ensures |Subtrees(p, depth, ms, me)| == |ms|
    ensures forall k | 0 <= k < |ms| :: Subtrees(p, depth, ms, me)[k] == SearchTree(ApplyMove(p, ms[k]), depth, me)
    decreases |ms|
  {
    if ms != [] {
      SubtreesAt(p, depth, ms[1..], me);
    }
  }

  /**
   * The shape of an inner node `d + 1` plies deep: one subtree per ordered
   * legal move, each the tree, `d` plies deep, of the position the move leads to.
   */
  lemma SearchTreeNode(p: Position, d: int, me: Color)
    requires 0 <= d && LegalMoves(p, p.turn) != []
    ensures var t := SearchTree(p, d + 1, me);
            var ordered := OrderMoves(p, LegalMoves(p, p.turn));
            && AllInBounds(ordered)
            && t == Node(p.turn == me, t.kids)
            && |t.kids| == |ordered|
            && forall k | 0 <= k < |ordered| :: t.kids[k] == SearchTree(ApplyMove(p, ordered[k]), d, me)
  {
    OrderMovesPermutes(p, LegalMoves(p, p.turn));
    SubtreesAt(p, d, OrderMoves(p, LegalMoves(p, p.turn)), me);
  }

  /** SearchTreeNode without the subtrees: the node's kind, its width, and the moves it is built from. */
  lemma SearchTreeShape(p: Position, d: int, me: Color)
    requires 0 <= d && LegalMoves(p, p.turn) != []
    ensures var t := SearchTree(p, d + 1, me);
            var ordered := OrderMoves(p, LegalMoves(p, p.turn));
            && AllInBounds(ordered)
            && t == Node(p.turn == me, t.kids)
            && |t.kids| == |ordered|
  {
    SearchTreeNode(p, d, me);
  }

  /** The search of the i-th ordered move's position is the search of the node's i-th subtree. */
  lemma KidValue(p: Position, d: int, me: Color, i: int, alpha: Bound, beta: Bound, v: Bound)
    requires 0 <= d && LegalMoves(p, p.turn) != []
    requires var ordered := OrderMoves(p, LegalMoves(p, p.turn));
             && 0 <= i < |ordered| && MoveInBounds(ordered[i])
             && v == SearchValue(ApplyMove(p, ordered[i]), d, alpha, beta, me)
    ensures var t := SearchTree(p, d + 1, me);
            t.Node? && i < |t.kids| && v == AlphaBeta(t.kids[i], alpha, beta)
  {
    SearchTreeNode(p, d, me);
  }

  /** The value the search of the source returns for `p` with the window (alpha, beta). */
  function SearchValue(p: Position, depth: int, alpha: Bound, beta: Bound, me: Color): Bound
  {
    AlphaBeta(SearchTree(p, depth, me), alpha, beta)
  }

  /** The plain minimax value of `p`, with no pruning. */
  function MinimaxValue(p: Position, depth: int, me: Color): Bound
  {
    Minimax(SearchTree(p, depth, me))
  }

  /** Every inner node of a position's tree has a subtree: a node is made only when a legal move exists. */
  lemma {:induction false} SearchTreeProper(p: Position, depth: int, me: Color)
    ensures Proper(SearchTree(p, depth, me))
    decreases depth
  {
    if 0 < depth && LegalMoves(p, p.turn) != [] {
      var d := depth - 1;
      var t := SearchTree(p, d + 1, me);
      var ordered := OrderMoves(p, LegalMoves(p, p.turn));
      SearchTreeNode(p, d, me);
      forall k | 0 <= k < |t.kids|
        ensures Proper(t.kids[k])
      {
        SearchTreeProper(ApplyMove(p, ordered[k]), d, me);
      }
    }
  }

  /**
   * Pruning never changes the result: the search of the source, started from
   * the full window as the bot starts it, returns the plain minimax value,
   * and that value is a finite score.
   */
  lemma SearchIsMinimax(p: Position, depth: int, me: Color)
    ensures SearchValue(p, depth, NegInf, PosInf, me) == MinimaxValue(p, depth, me)
    ensures MinimaxValue(p, depth, me).Fin?
  {
    AlphaBetaIsMinimax(SearchTree(p, depth, me));
    SearchTreeProper(p, depth, me);
    ProperFinite(SearchTree(p, depth, me));
  }

  /**
   * The leaves of the search: with the depth exhausted the value is the
   * evaluation; with no legal move it is minus the mate score for the side
   * `me` when `me` is checkmated, the mate score when the opponent is, and 0
   * for stalemate.
   */
  lemma MinimaxLeaf(p: Position, depth: int, me: Color)
    ensures depth <= 0 && LegalMoves(p, p.turn) != [] ==> MinimaxValue(p, depth, me) == Fin(Evaluate(p, me, false))
    ensures LegalMoves(p, p.turn) == [] && InCheck(p, p.turn) && p.turn == me ==> MinimaxValue(p, depth, me) == Fin(-MateScore)
    ensures LegalMoves(p, p.turn) == [] && InCheck(p, p.turn) && p.turn != me ==> MinimaxValue(p, depth, me) == Fin(MateScore)
    ensures LegalMoves(p, p.turn) == [] && !InCheck(p, p.turn) ==> MinimaxValue(p, depth, me) == Fin(0.0)
  {
  }

  /**
   * What minimax computes at an inner node: on `me`'s turn the value of the
   * best legal move for `me`, on the other side's turn the value of the
   * worst, each attained by some legal move.
   */
  lemma MinimaxIsBestChild(p: Position, d: int, me: Color)
    requires 0 <= d && LegalMoves(p, p.turn) != []
    ensures var legal := LegalMoves(p, p.turn);
            p.turn == me ==>
              forall m | m in legal :: Le(MinimaxValue(ApplyMove(p, m), d, me), MinimaxValue(p, d + 1, me))
    ensures var legal := LegalMoves(p, p.turn);
            p.turn != me ==>
              forall m | m in legal :: Le(MinimaxValue(p, d + 1, me), MinimaxValue(ApplyMove(p, m), d, me))
    ensures var legal := LegalMoves(p, p.turn);
            exists m | m in legal :: MinimaxValue(p, d + 1, me) == MinimaxValue(ApplyMove(p, m), d, me)
  {
    forall m | m in LegalMoves(p, p.turn)
      ensures p.turn == me ==> Le(MinimaxValue(ApplyMove(p, m), d, me), MinimaxValue(p, d + 1, me))
      ensures p.turn != me ==> Le(MinimaxValue(p, d + 1, me), MinimaxValue(ApplyMove(p, m), d, me))
    {
      ChildBound(p, d, me, m);
    }
    BestChildAttained(p, d, me);
  }

  /** The value of one legal move bounds the node's value: from above on `me`'s turn, from below otherwise. */
  lemma ChildBound(p: Position, d: int, me: Color, m: Move)
    requires 0 <= d && m in LegalMoves(p, p.turn)
    ensures p.turn == me ==> Le(MinimaxValue(ApplyMove(p, m), d, me), MinimaxValue(p, d + 1, me))
    ensures p.turn != me ==> Le(MinimaxValue(p, d + 1, me), MinimaxValue(ApplyMove(p, m), d, me))
  {
    var legal := LegalMoves(p, p.turn);
    var ordered := OrderMoves(p, legal);
    var t := SearchTree(p, d + 1, me);
    SearchTreeNode(p, d, me);
    OrderMovesPermutes(p, legal);
    MinimaxIsBestKid(t);
    var k :| 0 <= k < |ordered| && ordered[k] == m;
    assert t.kids[k] == SearchTree(ApplyMove(p, m), d, me);
  }

  /** Some legal move attains the node's value. */
  lemma BestChildAttained(p: Position, d: int, me: Color)
    requires 0 <= d && LegalMoves(p, p.turn) != []
    ensures exists m | m in LegalMoves(p, p.turn) :: MinimaxValue(p, d + 1, me) == MinimaxValue(ApplyMove(p, m), d, me)
  {
    var legal := LegalMoves(p, p.turn);
    var ordered := OrderMoves(p, legal);
    var t := SearchTree(p, d + 1, me);
    SearchTreeNode(p, d, me);
    OrderMovesPermutes(p, legal);
    MinimaxIsBestKid(t);
    var k :| 0 <= k < |t.kids| && Minimax(t) == Minimax(t.kids[k]);
    assert ordered[k] in legal;
  }

  /**
   * The search of the source: the legal moves are generated and a leaf is
   * evaluated; an inner node is searched by `MaximizeOver` or `MinimizeOver`, by
   * whose side is to move.
   */
  method MinimaxSearch(p: Position, depth: int, alpha: Bound, beta: Bound, me: Color) returns (value: Bound)
    ensures value == SearchValue(p, depth, alpha, beta, me)
    decreases depth, 2
  {
    var legal := GenerateLegalMoves(p, p.turn);
    if depth <= 0 || |legal| == 0 {
      var score := EvaluatePosition(p, me, |legal| == 0);
      return Fin(score);
    }
    if p.turn == me {
      value := MaximizeOver(p, depth - 1, legal, alpha, beta, me);
    } else {
      value := MinimizeOver(p, depth - 1, legal, alpha, beta, me);
    }
  }

  /** The search, `d` plies deep, of the position the i-th ordered move leads to: the value of the node's i-th subtree. */
  method SearchChild(p: Position, d: int, ordered: seq<Move>, i: int, alpha: Bound, beta: Bound, me: Color)
    returns (v: Bound)
    requires 0 <= d && LegalMoves(p, p.turn) != [] && ordered == OrderMoves(p, LegalMoves(p, p.turn))
    requires 0 <= i < |ordered|
    ensures var t := SearchTree(p, d + 1, me);
            t.Node? && i < |t.kids| && v == AlphaBeta(t.kids[i], alpha, beta)
    decreases d + 1, 0
  {
    SearchTreeShape(p, d, me);
    v := MinimaxSearch(ApplyMove(p, ordered[i]), d, alpha, beta, me);
    KidValue(p, d, me, i, alpha, beta, v);
  }

  /**
   * The move loop of the search at a node `d + 1` plies deep where the bot
   * is to move: the moves in heuristic order, each child searched `d` plies
   * deep with the current window, keeping the largest value and raising
   * alpha, and stopping once beta <= alpha.
   */
  method MaximizeOver(p: Position, d: int, legal: seq<Move>, alpha: Bound, beta: Bound, me: Color) returns (value: Bound)
    requires 0 <= d && legal == LegalMoves(p, p.turn) && legal != [] && p.turn == me
    ensures value == SearchValue(p, d + 1, alpha, beta, me)
    decreases d + 1, 1
  {
    var ordered := OrderMoves(p, legal);
    ghost var t := SearchTree(p, d + 1, me);
    SearchTreeShape(p, d, me);
    var best := NegInf;
    var a := alpha;
    for i := 0 to |ordered|
      invariant MaxLoop(t, i, a, beta, best) == AlphaBeta(t, alpha, beta)
    {
      var v := SearchChild(p, d, ordered, i, a, beta, me);
      MaxLoopUnfold(t, i, a, beta, best, v);
      best := BMax(best, v);
      a := BMax(a, best);
      if Le(beta, a) {
        return best;
      }
    }
    return best;
  }

  /** The mirror image of `MaximizeOver` where the opponent is to move: smallest value, lowering beta. */
  method MinimizeOver(p: Position, d: int, legal: seq<Move>, alpha: Bound, beta: Bound, me: Color) returns (value: Bound)
    requires 0 <= d && legal == LegalMoves(p, p.turn) && legal != [] && p.turn != me
    ensures value == SearchValue(p, d + 1, alpha, beta, me)
    decreases d + 1, 1
  {
    var ordered := OrderMoves(p, legal);
    ghost var t := SearchTree(p, d + 1, me);
    SearchTreeShape(p, d, me);
    var best := PosInf;
    var b := beta;
    for i := 0 to |ordered|
      invariant MinLoop(t, i, alpha, b, best) == AlphaBeta(t, alpha, beta)
    {
      var v := SearchChild(p, d, ordered, i, alpha, b, me);
      MinLoopUnfold(t, i, alpha, b, best, v);
      best := BMin(best, v);
      b := BMin(b, best);
      if Le(b, alpha) {
        return best;
      }
    }
    return best;
  }
}
