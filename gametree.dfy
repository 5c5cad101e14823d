// Minimax and alpha-beta pruning on an abstract game tree. The search of
// game.js walks such a tree implicitly (a node per position, a child per
// legal move, a leaf where the depth runs out or no move is left); here the
// two searches are defined on the tree itself, scores are exact reals with
// the two infinities of the source's window added, and pruning is proved
// never to change the result.

module GameTree {

  /** A search bound or result: a score, or one of the two infinities the window starts from. */
  datatype Bound = NegInf | Fin(value: real) | PosInf

  predicate Le(x: Bound, y: Bound)
  {
    x.NegInf? || y.PosInf? || (x.Fin? && y.Fin? && x.value <= y.value)
  }

  function BMax(x: Bound, y: Bound): (r: Bound)
    ensures Le(x, r) && Le(y, r) && (r == x || r == y)
  {
    if Le(x, y) then y else x
  }

  function BMin(x: Bound, y: Bound): (r: Bound)
    ensures Le(r, x) && Le(r, y) && (r == x || r == y)
  {
    if Le(x, y) then x else y
  }

  /** `x` pulled into the window [lo, hi]. */
  function Clamp(lo: Bound, hi: Bound, x: Bound): Bound
  {
    BMin(hi, BMax(lo, x))
  }

  /** The full window changes nothing. */
  lemma ClampFull(x: Bound)
    ensures Clamp(NegInf, PosInf, x) == x
  {
  }

  /**
   * A game tree: a leaf carries its static score; an inner node says
   * whether the side to move there maximises, and has one subtree per move.
   */
  datatype Tree = Leaf(score: real) | Node(maximizing: bool, kids: seq<Tree>)

  /** Plain minimax: a leaf's score, or the best value of the subtrees for the side to move. */
  function Minimax(t: Tree): Bound
    decreases t, 1
  {
    match t
    case Leaf(score) => Fin(score)
    case Node(maximizing, kids) => if maximizing then MaxRest(t, 0) else MinRest(t, 0)
  }

  /** The largest minimax value of the subtrees from the i-th on; minus infinity when none is left. */
  function MaxRest(t: Tree, i: nat): Bound
    requires t.Node? && i <= |t.kids|
    decreases t, 0, |t.kids| - i
  {
    if i == |t.kids| then NegInf else BMax(Minimax(t.kids[i]), MaxRest(t, i + 1))
  }

  /** The smallest minimax value of the subtrees from the i-th on; plus infinity when none is left. */
  function MinRest(t: Tree, i: nat): Bound
    requires t.Node? && i <= |t.kids|
    decreases t, 0, |t.kids| - i
  {
    if i == |t.kids| then PosInf else BMin(Minimax(t.kids[i]), MinRest(t, i + 1))
  }

  /** The largest remaining value bounds every remaining subtree and is the value of one of them. */
  lemma {:induction false} MaxRestIsMax(t: Tree, i: nat)
    requires t.Node? && i <= |t.kids|
    ensures forall k | i <= k < |t.kids| :: Le(Minimax(t.kids[k]), MaxRest(t, i))
    ensures i < |t.kids| ==> exists k | i <= k < |t.kids| :: MaxRest(t, i) == Minimax(t.kids[k])
    decreases |t.kids| - i
  {
    if i < |t.kids| {
      MaxRestIsMax(t, i + 1);
    }
  }

  /** The smallest remaining value is below every remaining subtree and is the value of one of them. */
  lemma {:induction false} MinRestIsMin(t: Tree, i: nat)
    requires t.Node? && i <= |t.kids|
    ensures forall k | i <= k < |t.kids| :: Le(MinRest(t, i), Minimax(t.kids[k]))
    ensures i < |t.kids| ==> exists k | i <= k < |t.kids| :: MinRest(t, i) == Minimax(t.kids[k])
    decreases |t.kids| - i
  {
    if i < |t.kids| {
      MinRestIsMin(t, i + 1);
    }
  }

  /**
   * What minimax computes at an inner node with at least one subtree: for
   * the maximising side the largest subtree value, for the other the
   * smallest, each the value of some subtree.
   */
  lemma MinimaxIsBestKid(t: Tree)
    requires t.Node? && t.kids != []
    ensures t.maximizing ==> forall k | 0 <= k < |t.kids| :: Le(Minimax(t.kids[k]), Minimax(t))
    ensures !t.maximizing ==> forall k | 0 <= k < |t.kids| :: Le(Minimax(t), Minimax(t.kids[k]))
    ensures exists k | 0 <= k < |t.kids| :: Minimax(t) == Minimax(t.kids[k])
  {
    MaxRestIsMax(t, 0);
    MinRestIsMin(t, 0);
  }

  /**
   * Alpha-beta as the source runs it: a leaf's score; at an inner node the
   * subtrees in order, each searched with the current window, until the
   * window closes (beta <= alpha).
   */
  function AlphaBeta(t: Tree, alpha: Bound, beta: Bound): Bound
    decreases t, 1
  {
    match t
    case Leaf(score) => Fin(score)
    case Node(maximizing, kids) =>
      if maximizing then MaxLoop(t, 0, alpha, beta, NegInf) else MinLoop(t, 0, alpha, beta, PosInf)
  }

  /** The maximising loop from the i-th subtree on, with lower bound `alpha` and the best value so far. */
  function MaxLoop(t: Tree, i: nat, alpha: Bound, beta: Bound, best: Bound): Bound
    requires t.Node? && i <= |t.kids|
    decreases t, 0, |t.kids| - i
  {
    if i == |t.kids| then best
    else
      var best' := BMax(best, AlphaBeta(t.kids[i], alpha, beta));
      var alpha' := BMax(alpha, best');
      if Le(beta, alpha') then best' else MaxLoop(t, i + 1, alpha', beta, best')
  }

  /** The minimising loop from the i-th subtree on, with upper bound `beta` and the worst value so far. */
  function MinLoop(t: Tree, i: nat, alpha: Bound, beta: Bound, best: Bound): Bound
    requires t.Node? && i <= |t.kids|
    decreases t, 0, |t.kids| - i
  {
    if i == |t.kids| then best
    else
      var best' := BMin(best, AlphaBeta(t.kids[i], alpha, beta));
      var beta' := BMin(beta, best');
      if Le(beta', alpha) then best' else MinLoop(t, i + 1, alpha, beta', best')
  }

  /**
   * One step of the maximising loop: the subtree was searched with the window
   * (alpha, beta), alpha = max(alpha0, best) < beta, and its value v agrees
   * with its minimax value c once both are clamped to that window.
   */
  lemma MaxStep(alpha0: Bound, alpha: Bound, beta: Bound, best: Bound, v: Bound, c: Bound, rest: Bound)
    requires !Le(beta, alpha0) && alpha == BMax(alpha0, best) && !Le(beta, alpha)
    requires Clamp(alpha, beta, v) == Clamp(alpha, beta, c)
    ensures var best' := BMax(best, v);
            var alpha' := BMax(alpha, best');
            && alpha' == BMax(alpha0, best')
            && (Le(beta, alpha') ==> Clamp(alpha0, beta, best') == Clamp(alpha0, beta, BMax(best, BMax(c, rest))))
            && (!Le(beta, alpha') ==>
                  Clamp(alpha0, beta, BMax(best', rest)) == Clamp(alpha0, beta, BMax(best, BMax(c, rest))))
  {
  }

  /** One step of the minimising loop, the mirror image of `MaxStep`. */
  lemma MinStep(alpha: Bound, beta0: Bound, beta: Bound, best: Bound, v: Bound, c: Bound, rest: Bound)
    requires !Le(beta0, alpha) && beta == BMin(beta0, best) && !Le(beta, alpha)
    requires Clamp(alpha, beta, v) == Clamp(alpha, beta, c)
    ensures var best' := BMin(best, v);
            var beta' := BMin(beta, best');
            && beta' == BMin(beta0, best')
            && (Le(beta', alpha) ==> Clamp(alpha, beta0, best') == Clamp(alpha, beta0, BMin(best, BMin(c, rest))))
            && (!Le(beta', alpha) ==>
                  Clamp(alpha, beta0, BMin(best', rest)) == Clamp(alpha, beta0, BMin(best, BMin(c, rest))))
  {
  }

  /**
   * Alpha-beta is exact inside its window: for alpha < beta the value it
   * returns and the minimax value agree once both are clamped to [alpha, beta].
   */
  lemma {:induction false} AlphaBetaClamp(t: Tree, alpha: Bound, beta: Bound)
    requires !Le(beta, alpha)
    ensures Clamp(alpha, beta, AlphaBeta(t, alpha, beta)) == Clamp(alpha, beta, Minimax(t))
    decreases t, 1
  {
    if t.Node? {
      if t.maximizing {
        MaxLoopClamp(t, 0, alpha, alpha, beta, NegInf);
      } else {
        MinLoopClamp(t, 0, beta, alpha, beta, PosInf);
      }
    }
  }

  /** The maximising loop from the i-th subtree on agrees, clamped to [alpha0, beta], with the best remaining value. */
  lemma {:induction false} MaxLoopClamp(t: Tree, i: nat, alpha0: Bound, alpha: Bound, beta: Bound, best: Bound)
    requires t.Node? && i <= |t.kids|
    requires !Le(beta, alpha0) && alpha == BMax(alpha0, best) && !Le(beta, alpha)
    ensures Clamp(alpha0, beta, MaxLoop(t, i, alpha, beta, best)) == Clamp(alpha0, beta, BMax(best, MaxRest(t, i)))
    decreases t, 0, |t.kids| - i
  {
    if i < |t.kids| {
      var v := AlphaBeta(t.kids[i], alpha, beta);
      AlphaBetaClamp(t.kids[i], alpha, beta);
      MaxStep(alpha0, alpha, beta, best, v, Minimax(t.kids[i]), MaxRest(t, i + 1));
      var best' := BMax(best, v);
      var alpha' := BMax(alpha, best');
      if !Le(beta, alpha') {
        MaxLoopClamp(t, i + 1, alpha0, alpha', beta, best');
      }
    }
  }

  /** The minimising loop from the i-th subtree on agrees, clamped to [alpha, beta0], with the worst remaining value. */
  lemma {:induction false} MinLoopClamp(t: Tree, i: nat, beta0: Bound, alpha: Bound, beta: Bound, best: Bound)
    requires t.Node? && i <= |t.kids|
    requires !Le(beta0, alpha) && beta == BMin(beta0, best) && !Le(beta, alpha)
    ensures Clamp(alpha, beta0, MinLoop(t, i, alpha, beta, best)) == Clamp(alpha, beta0, BMin(best, MinRest(t, i)))
    decreases t, 0, |t.kids| - i
  {
    if i < |t.kids| {
      var v := AlphaBeta(t.kids[i], alpha, beta);
      AlphaBetaClamp(t.kids[i], alpha, beta);
      MinStep(alpha, beta0, beta, best, v, Minimax(t.kids[i]), MinRest(t, i + 1));
      var best' := BMin(best, v);
      var beta' := BMin(beta, best');
      if !Le(beta', alpha) {
        MinLoopClamp(t, i + 1, beta0, alpha, beta', best');
      }
    }
  }

  /** One turn of the maximising loop: the window closes and the loop stops, or it goes on with the next subtree. */
  lemma MaxLoopUnfold(t: Tree, i: nat, alpha: Bound, beta: Bound, best: Bound, v: Bound)
    requires t.Node? && i < |t.kids| && v == AlphaBeta(t.kids[i], alpha, beta)
    ensures var best' := BMax(best, v);
            var alpha' := BMax(alpha, best');
            && (Le(beta, alpha') ==> MaxLoop(t, i, alpha, beta, best) == best')
            && (!Le(beta, alpha') ==> MaxLoop(t, i, alpha, beta, best) == MaxLoop(t, i + 1, alpha', beta, best'))
  {
  }

  /** One turn of the minimising loop, the mirror image of `MaxLoopUnfold`. */
  lemma MinLoopUnfold(t: Tree, i: nat, alpha: Bound, beta: Bound, best: Bound, v: Bound)
    requires t.Node? && i < |t.kids| && v == AlphaBeta(t.kids[i], alpha, beta)
    ensures var best' := BMin(best, v);
            var beta' := BMin(beta, best');
            && (Le(beta', alpha) ==> MinLoop(t, i, alpha, beta, best) == best')
            && (!Le(beta', alpha) ==> MinLoop(t, i, alpha, beta, best) == MinLoop(t, i + 1, alpha, beta', best'))
  {
  }

  /** Pruning never changes the result: from the full window alpha-beta returns the minimax value. */
  lemma AlphaBetaIsMinimax(t: Tree)
    ensures AlphaBeta(t, NegInf, PosInf) == Minimax(t)
  {
    AlphaBetaClamp(t, NegInf, PosInf);
    ClampFull(AlphaBeta(t, NegInf, PosInf));
    ClampFull(Minimax(t));
  }

  /** Every inner node has a subtree, as every searched position with a legal move does. */
  predicate Proper(t: Tree)
  {
    match t
    case Leaf(_) => true
    case Node(_, kids) => kids != [] && forall k | 0 <= k < |kids| :: Proper(kids[k])
  }

  /** A proper tree has a finite minimax value. */
  lemma {:induction false} ProperFinite(t: Tree)
    requires Proper(t)
    ensures Minimax(t).Fin?
    decreases t, 1
  {
    if t.Node? {
      ProperRestFinite(t, 0);
    }
  }

  lemma {:induction false} ProperRestFinite(t: Tree, i: nat)
    requires Proper(t) && t.Node? && i < |t.kids|
    ensures MaxRest(t, i).Fin? && MinRest(t, i).Fin?
    decreases t, 0, |t.kids| - i
  {
    ProperFinite(t.kids[i]);
    if i + 1 < |t.kids| {
      ProperRestFinite(t, i + 1);
    }
  }
}
