// Geometric move generation of game.js: the moves each piece can make by
// its movement rules alone, without looking at whether its own king would be
// left in check. Castling, which needs the attack oracle, is added in Legality.

module Geometry {
  import opened Board

  /** A move with no promotion, no en-passant capture and no castling. */
  function PlainMove(fromRow: int, fromCol: int, toRow: int, toCol: int): Move
  {
    Move(Square(fromRow, fromCol), Square(toRow, toCol), None, false, None)
  }

  /** The square is not held by a piece of `color`. */
  predicate OpenFor(b: Grid, row: int, col: int, color: Color)
    requires InBounds(row, col)
  {
    At(b, row, col).None? || At(b, row, col).value.color != color
  }

  /** A square a piece of `color` may step onto: on the board and not held by its own side. */
  predicate StepTarget(p: Position, row: int, col: int, color: Color)
  {
    InBounds(row, col) && OpenFor(p.board, row, col, color)
  }

  /** The square is on the board and empty. */
  predicate Vacant(p: Position, s: Square)
  {
    SquareInBounds(s) && At(p.board, s.row, s.col).None?
  }

  predicate UnitDirection(dr: int, dc: int)
  {
    -1 <= dr <= 1 && -1 <= dc <= 1 && (dr != 0 || dc != 0)
  }

  /** Appends the step to (toRow, toCol) when that square is a step target. */
  function PushTarget(p: Position, moves: seq<Move>, fromRow: int, fromCol: int, toRow: int, toCol: int,
                      color: Color): (r: seq<Move>)
    ensures |moves| <= |r| && r[..|moves|] == moves
    ensures forall m :: m in r <==>
              m in moves || (m == PlainMove(fromRow, fromCol, toRow, toCol) && StepTarget(p, toRow, toCol, color))
  {
    if !InBounds(toRow, toCol) then moves
    else if OpenFor(p.board, toRow, toCol, color) then moves + [PlainMove(fromRow, fromCol, toRow, toCol)]
    else moves
  }

  /**
   * The steps of a knight or king at (row, col) along the first k offsets of
   * `ds`: exactly the offsets whose target square is a step target.
   */
  function DeltaMoves(p: Position, row: int, col: int, color: Color, ds: seq<(int, int)>, k: nat): (ms: seq<Move>)
    requires k <= |ds|
    ensures forall m | m in ms :: exists j | 0 <= j < k ::
              m == PlainMove(row, col, row + ds[j].0, col + ds[j].1) && StepTarget(p, m.to.row, m.to.col, color)
    ensures forall j | 0 <= j < k && StepTarget(p, row + ds[j].0, col + ds[j].1, color) ::
              PlainMove(row, col, row + ds[j].0, col + ds[j].1) in ms
  {
    if k == 0 then []
    else PushTarget(p, DeltaMoves(p, row, col, color, ds, k - 1), row, col, row + ds[k - 1].0, col + ds[k - 1].1, color)
  }

  /** A measure that falls by at least one on every step of a unit direction while on the board. */
  function RayBudget(rr: int, cc: int, dr: int, dc: int): int
  {
    (if dr > 0 then 8 - rr else if dr < 0 then rr + 1 else 0)
    + (if dc > 0 then 8 - cc else if dc < 0 then cc + 1 else 0)
  }

  /**
   * The moves of a sliding piece of `color` at (row, col) along direction
   * (dr, dc), starting the walk at (rr, cc). The ray is contiguous, passes
   * only over empty squares, stops at the first occupied square and includes
   * it only when it holds an enemy piece.
   */
  function Ray(p: Position, row: int, col: int, color: Color, dr: int, dc: int, rr: int, cc: int): (ms: seq<Move>)
    requires UnitDirection(dr, dc)
    ensures forall m | m in ms ::
              m == PlainMove(row, col, m.to.row, m.to.col) && StepTarget(p, m.to.row, m.to.col, color)
    decreases RayBudget(rr, cc, dr, dc)
  {
    if !InBounds(rr, cc) then []
    else if At(p.board, rr, cc).None? then [PlainMove(row, col, rr, cc)] + Ray(p, row, col, color, dr, dc, rr + dr, cc + dc)
    else if At(p.board, rr, cc).value.color != color then [PlainMove(row, col, rr, cc)]
    else []
  }

  /** The move at index i + 1 goes one step further along (dr, dc) than the one at i, which lands on an empty square. */
  predicate StepsOn(p: Position, ms: seq<Move>, i: nat, dr: int, dc: int)
    requires i + 1 < |ms|
  {
    ms[i + 1].to == Square(ms[i].to.row + dr, ms[i].to.col + dc) && Vacant(p, ms[i].to)
  }

  /**
   * The shape of a ray: it starts at (rr, cc), is contiguous along (dr, dc),
   * passes only over empty squares, and an empty ray means the first square
   * is off the board or holds a piece of the mover's side.
   */
  lemma {:induction false} RayShape(p: Position, row: int, col: int, color: Color, dr: int, dc: int, rr: int, cc: int)
    requires UnitDirection(dr, dc)
    ensures var ms := Ray(p, row, col, color, dr, dc, rr, cc);
            && (|ms| > 0 ==> ms[0].to == Square(rr, cc))
            && (forall i: nat | i + 1 < |ms| :: StepsOn(p, ms, i, dr, dc))
            && (|ms| == 0 ==> !StepTarget(p, rr, cc, color))
    decreases RayBudget(rr, cc, dr, dc)
  {
    if InBounds(rr, cc) && At(p.board, rr, cc).None? {
      var rest := Ray(p, row, col, color, dr, dc, rr + dr, cc + dc);
      RayShape(p, row, col, color, dr, dc, rr + dr, cc + dc);
      var ms := Ray(p, row, col, color, dr, dc, rr, cc);
      assert ms == [PlainMove(row, col, rr, cc)] + rest;
      forall i: nat | i + 1 < |ms| ensures StepsOn(p, ms, i, dr, dc) {
        if i > 0 {
          assert StepsOn(p, rest, i - 1, dr, dc);
          assert ms[i] == rest[i - 1] && ms[i + 1] == rest[i];
        } else {
          assert ms[1] == rest[0];
        }
      }
    }
  }

  /**
   * Where a ray ends: when its last square is empty, the next square along
   * the direction is off the board or held by the mover's own side.
   */
  lemma {:induction false} RayEnd(p: Position, row: int, col: int, color: Color, dr: int, dc: int, rr: int, cc: int)
    requires UnitDirection(dr, dc)
    ensures RayBlocked(p, Ray(p, row, col, color, dr, dc, rr, cc), color, dr, dc)
    decreases RayBudget(rr, cc, dr, dc), 1
  {
    if InBounds(rr, cc) && At(p.board, rr, cc).None? {
      if |Ray(p, row, col, color, dr, dc, rr + dr, cc + dc)| > 0 {
        RayEndPast(p, row, col, color, dr, dc, rr, cc);
      } else {
        RayEndLast(p, row, col, color, dr, dc, rr, cc);
      }
    } else {
      var ms := Ray(p, row, col, color, dr, dc, rr, cc);
      assert |ms| > 0 ==> ms == [PlainMove(row, col, rr, cc)] && !Vacant(p, ms[0].to);
    }
  }

  /** The ray's last move lands on an empty square only when the walk cannot go on past it. */
  predicate RayBlocked(p: Position, ms: seq<Move>, color: Color, dr: int, dc: int)
  {
    |ms| > 0 && Vacant(p, ms[|ms| - 1].to) ==>
      !StepTarget(p, ms[|ms| - 1].to.row + dr, ms[|ms| - 1].to.col + dc, color)
  }

  /** RayEnd when the walk passes over the empty square (rr, cc) and goes on. */
  lemma {:induction false} RayEndPast(p: Position, row: int, col: int, color: Color, dr: int, dc: int, rr: int, cc: int)
    requires UnitDirection(dr, dc) && InBounds(rr, cc) && At(p.board, rr, cc).None?
    requires |Ray(p, row, col, color, dr, dc, rr + dr, cc + dc)| > 0
    ensures RayBlocked(p, Ray(p, row, col, color, dr, dc, rr, cc), color, dr, dc)
    decreases RayBudget(rr, cc, dr, dc), 0
  {
    var ms := Ray(p, row, col, color, dr, dc, rr, cc);
    var rest := Ray(p, row, col, color, dr, dc, rr + dr, cc + dc);
    assert ms == [PlainMove(row, col, rr, cc)] + rest;
    RayEnd(p, row, col, color, dr, dc, rr + dr, cc + dc);
    assert ms[|ms| - 1] == rest[|rest| - 1];
  }

  /** RayEnd when the empty square (rr, cc) is the last of the ray. */
  lemma RayEndLast(p: Position, row: int, col: int, color: Color, dr: int, dc: int, rr: int, cc: int)
    requires UnitDirection(dr, dc) && InBounds(rr, cc) && At(p.board, rr, cc).None?
    requires |Ray(p, row, col, color, dr, dc, rr + dr, cc + dc)| == 0
    ensures RayBlocked(p, Ray(p, row, col, color, dr, dc, rr, cc), color, dr, dc)
  {
    var ms := Ray(p, row, col, color, dr, dc, rr, cc);
    RayShape(p, row, col, color, dr, dc, rr + dr, cc + dc);
    assert ms == [PlainMove(row, col, rr, cc)];
  }

  predicate UnitDirections(dirs: seq<(int, int)>)
  {
    forall j | 0 <= j < |dirs| :: UnitDirection(dirs[j].0, dirs[j].1)
  }

  /** The moves of a sliding piece along the first k directions of `dirs`, ray after ray. */
  function SlideMoves(p: Position, row: int, col: int, color: Color, dirs: seq<(int, int)>, k: nat): (ms: seq<Move>)
    requires k <= |dirs| && UnitDirections(dirs)
    ensures forall m | m in ms ::
              m == PlainMove(row, col, m.to.row, m.to.col) && StepTarget(p, m.to.row, m.to.col, color)
  {
    if k == 0 then []
    else
      var rest := SlideMoves(p, row, col, color, dirs, k - 1);
      var ray := Ray(p, row, col, color, dirs[k - 1].0, dirs[k - 1].1, row + dirs[k - 1].0, col + dirs[k - 1].1);
      assert forall m | m in ray :: m == PlainMove(row, col, m.to.row, m.to.col) && StepTarget(p, m.to.row, m.to.col, color) by {
        forall m | m in ray ensures m == PlainMove(row, col, m.to.row, m.to.col) && StepTarget(p, m.to.row, m.to.col, color) {
          var i :| 0 <= i < |ray| && ray[i] == m;
        }
      }
      rest + ray
  }

  /** The ray directions of a bishop, rook or queen: diagonals first, then the orthogonals. */
  function Lines(k: Kind): (dirs: seq<(int, int)>)
    ensures UnitDirections(dirs)
  {
    assert UnitDirections(Diagonals) by {
      assert Diagonals == [(-1, -1), (-1, 1), (1, -1), (1, 1)];
    }
    assert UnitDirections(Orthogonals) by {
      assert Orthogonals == [(-1, 0), (1, 0), (0, -1), (0, 1)];
    }
    match k
    case Bishop => Diagonals
    case Rook => Orthogonals
    case Queen => Diagonals + Orthogonals
    case _ => []
  }

  function PawnDirection(c: Color): int
  {
    if c == White then -1 else 1
  }

  function PawnStartRow(c: Color): int
  {
    if c == White then 6 else 1
  }

  function PromotionRow(c: Color): int
  {
    if c == White then 0 else 7
  }

  /**
   * What the pawn-move rules allow a pawn of `color` at (row, col): a push to
   * the empty square ahead; a double push from the start row over an empty
   * square to an empty square; a diagonal capture of an enemy piece; an
   * en-passant capture onto the current target left by an enemy pawn. A move
   * to the far rank that is not en passant promotes, always to a queen, and no
   * other move promotes.
   */
  predicate PawnRule(p: Position, row: int, col: int, color: Color, attacksOnly: bool, m: Move)
    requires InBounds(row, col)
  {
    var dir := PawnDirection(color);
    && m.from == Square(row, col) && SquareInBounds(m.to) && m.castle.None?
    && m.promotion == (if !m.isEnPassant && m.to.row == PromotionRow(color) then Some(Queen) else None)
    && (m.to.col == col ==>
          !attacksOnly && !m.isEnPassant && Vacant(p, m.to)
          && (m.to.row == row + dir
              || (row == PawnStartRow(color) && m.to.row == row + 2 * dir && Vacant(p, Square(row + dir, col)))))
    && (m.to.col != col ==>
          m.to.row == row + dir && Abs(m.to.col - col) == 1
          && (m.isEnPassant ==> !attacksOnly && p.enPassant == Some(EnPassant(m.to.row, m.to.col, Opposite(color))))
          && (!m.isEnPassant ==> At(p.board, m.to.row, m.to.col).Some?
                                 && At(p.board, m.to.row, m.to.col).value.color == Opposite(color)))
  }

  /** The diagonal capture of a pawn towards column col + dc, and the en-passant capture onto that square. */
  function PawnCapture(p: Position, row: int, col: int, color: Color, dc: int, attacksOnly: bool): (ms: seq<Move>)
    requires InBounds(row, col) && (dc == -1 || dc == 1)
    ensures forall m | m in ms :: PawnRule(p, row, col, color, attacksOnly, m)
  {
    var targetRow := row + PawnDirection(color);
    var targetCol := col + dc;
    if !InBounds(targetRow, targetCol) then []
    else
      var target := At(p.board, targetRow, targetCol);
      var promotion := if targetRow == PromotionRow(color) then Some(Queen) else None;
      (if target.Some? && target.value.color == Opposite(color)
       then [Move(Square(row, col), Square(targetRow, targetCol), promotion, false, None)] else [])
      + (if !attacksOnly && p.enPassant == Some(EnPassant(targetRow, targetCol, Opposite(color)))
         then [Move(Square(row, col), Square(targetRow, targetCol), None, true, None)] else [])
  }

  /** The forward pushes of a pawn: one square, and two from the start row. */
  function PawnPushes(p: Position, row: int, col: int, color: Color, attacksOnly: bool): (ms: seq<Move>)
    requires InBounds(row, col)
    ensures forall m | m in ms :: PawnRule(p, row, col, color, attacksOnly, m)
  {
    var dir := PawnDirection(color);
    var oneStep := row + dir;
    if !attacksOnly && InBounds(oneStep, col) && At(p.board, oneStep, col).None? then
      [Move(Square(row, col), Square(oneStep, col), if oneStep == PromotionRow(color) then Some(Queen) else None, false, None)]
      + (if row == PawnStartRow(color) && At(p.board, row + 2 * dir, col).None? then [PlainMove(row, col, row + 2 * dir, col)] else [])
    else []
  }

  function PawnMoves(p: Position, row: int, col: int, color: Color, attacksOnly: bool): (ms: seq<Move>)
    requires InBounds(row, col)
    ensures forall m | m in ms :: PawnRule(p, row, col, color, attacksOnly, m)
  {
    PawnPushes(p, row, col, color, attacksOnly)
    + PawnCapture(p, row, col, color, -1, attacksOnly) + PawnCapture(p, row, col, color, 1, attacksOnly)
  }

  /** Every move the pawn rules allow is generated. */
  lemma PawnMovesComplete(p: Position, row: int, col: int, color: Color, attacksOnly: bool, m: Move)
    requires InBounds(row, col) && PawnRule(p, row, col, color, attacksOnly, m)
    ensures m in PawnMoves(p, row, col, color, attacksOnly)
  {
    if m.to.col == col {
      assert m in PawnPushes(p, row, col, color, attacksOnly);
    } else if m.to.col == col - 1 {
      assert m in PawnCapture(p, row, col, color, -1, attacksOnly);
    } else {
      assert m in PawnCapture(p, row, col, color, 1, attacksOnly);
    }
  }

  /** The pawn's moves are exactly the moves the pawn rules allow. */
  lemma PawnMovesMeaning(p: Position, row: int, col: int, color: Color, attacksOnly: bool)
    requires InBounds(row, col)
    ensures forall m :: m in PawnMoves(p, row, col, color, attacksOnly) <==> PawnRule(p, row, col, color, attacksOnly, m)
  {
    forall m | PawnRule(p, row, col, color, attacksOnly, m)
      ensures m in PawnMoves(p, row, col, color, attacksOnly)
    {
      PawnMovesComplete(p, row, col, color, attacksOnly, m);
    }
  }

  /**
   * What every generated move of the piece at (row, col) satisfies: it starts
   * there, lands on the board, is not a castling move, and lands on a square
   * not held by its own side unless it is an en-passant capture, which lands
   * on the current target left by an enemy pawn.
   */
  predicate GeometricallySound(p: Position, row: int, col: int, m: Move)
    requires InBounds(row, col)
  {
    var piece := At(p.board, row, col);
    && piece.Some?
    && m.from == Square(row, col) && SquareInBounds(m.to) && m.castle.None?
    && (!m.isEnPassant ==> OpenFor(p.board, m.to.row, m.to.col, piece.value.color))
    && (m.isEnPassant ==> piece.value.kind == Pawn && p.enPassant == Some(EnPassant(m.to.row, m.to.col, Opposite(piece.value.color))))
    && (m.promotion.Some? ==> piece.value.kind == Pawn && m.promotion == Some(Queen))
    && (piece.value.kind == Pawn && Abs(m.to.row - row) == 2 ==>
          !m.isEnPassant && m.to.col == col && Vacant(p, m.to) && Vacant(p, Square((row + m.to.row) / 2, col)))
  }

  /**
   * The moves of the piece at (row, col) by its movement rules, castling
   * excepted. With `attacksOnly` pawn pushes and en-passant captures are left
   * out, which is what the attack oracle asks for.
   */
  function StepMoves(p: Position, row: int, col: int, attacksOnly: bool): (ms: seq<Move>)
    requires InBounds(row, col)
    ensures At(p.board, row, col).None? ==> ms == []
    ensures forall m | m in ms :: GeometricallySound(p, row, col, m)
    ensures At(p.board, row, col).Some? && At(p.board, row, col).value.kind == Pawn ==>
              forall m :: m in ms <==> PawnRule(p, row, col, At(p.board, row, col).value.color, attacksOnly, m)
  {
    match At(p.board, row, col)
    case None => []
    case Some(piece) =>
      match piece.kind
      case Pawn =>
        var ms := PawnMoves(p, row, col, piece.color, attacksOnly);
        assert forall m | m in ms :: GeometricallySound(p, row, col, m) by {
          forall m | m in ms ensures GeometricallySound(p, row, col, m) {
            assert PawnRule(p, row, col, piece.color, attacksOnly, m);
          }
        }
        PawnMovesMeaning(p, row, col, piece.color, attacksOnly);
        ms
      case Knight => DeltaMoves(p, row, col, piece.color, KnightDeltas, 8)
      case King => DeltaMoves(p, row, col, piece.color, KingDeltas, 8)
      case _ => SlideMoves(p, row, col, piece.color, Lines(piece.kind), |Lines(piece.kind)|)
  }

  /** The capture loop over the two diagonals of a pawn, after its pushes. */
  method GeneratePawnMoves(p: Position, row: int, col: int, color: Color, attacksOnly: bool) returns (moves: seq<Move>)
    requires InBounds(row, col)
    ensures moves == PawnMoves(p, row, col, color, attacksOnly)
  {
    moves := PawnPushes(p, row, col, color, attacksOnly);
    for i := 0 to 2
      invariant i == 0 ==> moves == PawnPushes(p, row, col, color, attacksOnly)
      invariant i == 1 ==> moves == PawnPushes(p, row, col, color, attacksOnly) + PawnCapture(p, row, col, color, -1, attacksOnly)
      invariant i == 2 ==> moves == PawnMoves(p, row, col, color, attacksOnly)
    {
      var captures := GeneratePawnCapture(p, row, col, color, if i == 0 then -1 else 1, attacksOnly);
      moves := moves + captures;
    }
  }

  /** One diagonal of the capture loop: the capture of an enemy piece there, then the en-passant capture. */
  method GeneratePawnCapture(p: Position, row: int, col: int, color: Color, dc: int, attacksOnly: bool)
    returns (moves: seq<Move>)
    requires InBounds(row, col) && (dc == -1 || dc == 1)
    ensures moves == PawnCapture(p, row, col, color, dc, attacksOnly)
  {
    moves := [];
    var targetRow := row + PawnDirection(color);
    var targetCol := col + dc;
    if InBounds(targetRow, targetCol) {
      var target := At(p.board, targetRow, targetCol);
      if target.Some? && target.value.color == Opposite(color) {
        var promotion := if targetRow == PromotionRow(color) then Some(Queen) else None;
        moves := moves + [Move(Square(row, col), Square(targetRow, targetCol), promotion, false, None)];
      }
      if !attacksOnly && p.enPassant == Some(EnPassant(targetRow, targetCol, Opposite(color))) {
        moves := moves + [Move(Square(row, col), Square(targetRow, targetCol), None, true, None)];
      }
    }
  }

  /** The offset loop of knights and kings, pushing every step target. */
  method GenerateDeltaMoves(p: Position, row: int, col: int, color: Color, deltas: seq<(int, int)>) returns (moves: seq<Move>)
    ensures moves == DeltaMoves(p, row, col, color, deltas, |deltas|)
  {
    moves := [];
    for i := 0 to |deltas|
      invariant moves == DeltaMoves(p, row, col, color, deltas, i)
    {
      moves := PushTarget(p, moves, row, col, row + deltas[i].0, col + deltas[i].1, color);
    }
  }

  /** One ray walk: follow (dr, dc) from the square next to (row, col) until the board edge or a piece. */
  method WalkRay(p: Position, row: int, col: int, color: Color, dr: int, dc: int) returns (moves: seq<Move>)
    requires UnitDirection(dr, dc)
    ensures moves == Ray(p, row, col, color, dr, dc, row + dr, col + dc)
  {
    moves := [];
    var rr, cc := row + dr, col + dc;
    while InBounds(rr, cc)
      invariant moves + Ray(p, row, col, color, dr, dc, rr, cc) == Ray(p, row, col, color, dr, dc, row + dr, col + dc)
      decreases RayBudget(rr, cc, dr, dc)
    {
      var target := At(p.board, rr, cc);
      var step := [PlainMove(row, col, rr, cc)];
      if target.None? {
        assert Ray(p, row, col, color, dr, dc, rr, cc) == step + Ray(p, row, col, color, dr, dc, rr + dr, cc + dc);
        assert (moves + step) + Ray(p, row, col, color, dr, dc, rr + dr, cc + dc)
            == moves + (step + Ray(p, row, col, color, dr, dc, rr + dr, cc + dc));
        moves := moves + step;
      } else {
        if target.value.color != color {
          moves := moves + step;
        }
        return;
      }
      rr, cc := rr + dr, cc + dc;
    }
  }

  /** The ray walks of a sliding piece, one direction after the other. */
  method GenerateSlideMoves(p: Position, row: int, col: int, color: Color, lines: seq<(int, int)>) returns (moves: seq<Move>)
    requires UnitDirections(lines)
    ensures moves == SlideMoves(p, row, col, color, lines, |lines|)
  {
    moves := [];
    for i := 0 to |lines|
      invariant moves == SlideMoves(p, row, col, color, lines, i)
    {
      var ray := WalkRay(p, row, col, color, lines[i].0, lines[i].1);
      moves := moves + ray;
    }
  }

  /**
   * The generator of the source for everything but castling: the pawn rules,
   * the offset loops of knights and kings, and the ray walks of sliding pieces.
   */
  method GenerateStepMoves(p: Position, row: int, col: int, attacksOnly: bool) returns (moves: seq<Move>)
    requires InBounds(row, col)
    ensures moves == StepMoves(p, row, col, attacksOnly)
  {
    var cell := At(p.board, row, col);
    if cell.None? {
      return [];
    }
    var color, kind := cell.value.color, cell.value.kind;
    if kind == Pawn {
      moves := GeneratePawnMoves(p, row, col, color, attacksOnly);
    } else if kind == Knight {
      moves := GenerateDeltaMoves(p, row, col, color, KnightDeltas);
    } else if kind == King {
      moves := GenerateDeltaMoves(p, row, col, color, KingDeltas);
    } else {
      moves := GenerateSlideMoves(p, row, col, color, Lines(kind));
    }
  }
}
