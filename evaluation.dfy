// The static evaluation of game.js: material with a square bonus, the bishop
// pair, mobility, and the fixed scores of checkmate and stalemate. Scores
// are exact reals here; the source computes them in floating point.

module Evaluation {
  import opened Board
  import opened Attack
  import opened Legality

  /** The score of a checkmate, negative for the side that is mated. */
  const MateScore: real := 100000.0

  function RealAbs(x: real): real
  {
    if x < 0.0 then -x else x
  }

  /** How close (row, col) is to the middle of the board: 12 on the four centre squares, 0 in the corners. */
  function Centrality(row: int, col: int): real
  {
    14.0 - RealAbs(3.5 - row as real) * 2.0 - RealAbs(3.5 - col as real) * 2.0
  }

  /**
   * The positional bonus of a piece on (row, col): for a pawn six points per
   * row advanced beyond the first, for a knight, bishop or queen the
   * centrality, and for a rook or king 0.45 times the centrality.
   */
  function Bonus(piece: Piece, row: int, col: int): real
  {
    var centrality := Centrality(row, col);
    var hint := if piece.kind in {Knight, Bishop, Queen} then centrality else centrality * 0.45;
    if piece.kind == Pawn then (if piece.color == White then ((6 - row) * 6) as real else ((row - 1) * 6) as real)
    else hint
  }

  /** Material and bonus of a piece, positive for White and negative for Black. */
  function Signed(piece: Piece, row: int, col: int): real
  {
    var worth := PieceValue(piece.kind) as real + Bonus(piece, row, col);
    if piece.color == White then worth else -worth
  }

  /** What the board scan accumulates: the signed material and the number of bishops of each side. */
  datatype Tally = Tally(material: real, whiteBishops: nat, blackBishops: nat)

  const Zero := Tally(0.0, 0, 0)

  function Plus(s: Tally, t: Tally): Tally
  {
    Tally(s.material + t.material, s.whiteBishops + t.whiteBishops, s.blackBishops + t.blackBishops)
  }

  /** The contribution of one square. */
  function CellTally(x: Cell, row: int, col: int): Tally
  {
    match x
    case None => Zero
    case Some(piece) =>
      Tally(Signed(piece, row, col), if piece == Piece(White, Bishop) then 1 else 0,
            if piece == Piece(Black, Bishop) then 1 else 0)
  }

  /** The tally of the first `col` squares of row `row`. */
  function RowTally(b: Grid, row: int, col: int): Tally
    requires 0 <= row < 8 && 0 <= col <= 8
  {
    if col == 0 then Zero else Plus(RowTally(b, row, col - 1), CellTally(At(b, row, col - 1), row, col - 1))
  }

  /** The tally of the first `row` rows. */
  function BoardTally(b: Grid, row: int): Tally
    requires 0 <= row <= 8
  {
    if row == 0 then Zero else Plus(BoardTally(b, row - 1), RowTally(b, row - 1, 8))
  }

  /** Material, bonuses and the bishop pair of both sides, from White's side. */
  function StaticScore(b: Grid): real
  {
    var t := BoardTally(b, 8);
    t.material + (if t.whiteBishops >= 2 then 30.0 else 0.0) - (if t.blackBishops >= 2 then 30.0 else 0.0)
  }

  /**
   * The evaluation of `p` for the side `perspective`. A terminal position
   * (no legal move) scores minus the mate score for the side to move when it
   * is in check, and 0 for stalemate. Otherwise the static score is adjusted
   * by two points per legal move of the side to move.
   */
  function Evaluate(p: Position, perspective: Color, terminal: bool): real
  {
    if terminal then
      (if InCheck(p, p.turn) then (if p.turn == perspective then -MateScore else MateScore) else 0.0)
    else
      var mobility := |LegalMoves(p, p.turn)| as real;
      var white := StaticScore(p.board) + (if p.turn == White then 1.0 else -1.0) * mobility * 2.0;
      if perspective == White then white else -white
  }

  /** The evaluation is zero-sum: what one side gains the other loses. */
  lemma EvaluationZeroSum(p: Position, terminal: bool)
    ensures Evaluate(p, White, terminal) == -Evaluate(p, Black, terminal)
    ensures terminal && InCheck(p, p.turn) ==> Evaluate(p, p.turn, terminal) == -MateScore
    ensures terminal && !InCheck(p, p.turn) ==> Evaluate(p, White, terminal) == 0.0
  {
  }

  function FlipCell(x: Cell): Cell
  {
    match x
    case None => None
    case Some(piece) => Some(Piece(Opposite(piece.color), piece.kind))
  }

  /** The board seen from the other side: rows reversed and the colour of every piece swapped. */
  function Mirror(b: Grid): (m: Grid)
    ensures forall r, c | InBounds(r, c) :: At(m, r, c) == FlipCell(At(b, 7 - r, c))
  {
    var rows: seq<seq<Cell>> := seq(8, r requires 0 <= r < 8 => seq(8, c requires 0 <= c < 8 => FlipCell(At(b, 7 - r, c))));
    assert forall r | 0 <= r < 8 :: |rows[r]| == 8;
    rows
  }

  /** A board equal square by square to its mirror image is its own mirror. */
  lemma SelfMirror(b: Grid)
    requires forall r, c | InBounds(r, c) :: At(b, r, c) == FlipCell(At(b, 7 - r, c))
    ensures Mirror(b) == b
  {
    var m := Mirror(b);
    forall r | 0 <= r < 8
      ensures m[r] == b[r]
    {
      assert forall c | 0 <= c < 8 :: m[r][c] == At(m, r, c) == At(b, r, c);
    }
  }

  /** A tally seen from the other side. */
  function Neg(t: Tally): Tally
  {
    Tally(-t.material, t.blackBishops, t.whiteBishops)
  }

  lemma {:induction false} RowMirror(b: Grid, row: int, col: int)
    requires 0 <= row < 8 && 0 <= col <= 8
    ensures RowTally(Mirror(b), row, col) == Neg(RowTally(b, 7 - row, col))
  {
    if col > 0 {
      RowMirror(b, row, col - 1);
      var x := At(b, 7 - row, col - 1);
      if x.Some? {
        assert Centrality(row, col - 1) == Centrality(7 - row, col - 1);
      }
    }
  }

  /** The board tally as the sum of its eight row tallies, first row first. */
  lemma BoardTallyRows(b: Grid)
    ensures BoardTally(b, 8)
            == Plus(Plus(Plus(Plus(Plus(Plus(Plus(RowTally(b, 0, 8), RowTally(b, 1, 8)), RowTally(b, 2, 8)),
                                        RowTally(b, 3, 8)), RowTally(b, 4, 8)), RowTally(b, 5, 8)),
                         RowTally(b, 6, 8)), RowTally(b, 7, 8))
  {
    assert BoardTally(b, 1) == RowTally(b, 0, 8);
    assert BoardTally(b, 2) == Plus(BoardTally(b, 1), RowTally(b, 1, 8));
    assert BoardTally(b, 3) == Plus(BoardTally(b, 2), RowTally(b, 2, 8));
    assert BoardTally(b, 4) == Plus(BoardTally(b, 3), RowTally(b, 3, 8));
    assert BoardTally(b, 5) == Plus(BoardTally(b, 4), RowTally(b, 4, 8));
    assert BoardTally(b, 6) == Plus(BoardTally(b, 5), RowTally(b, 5, 8));
    assert BoardTally(b, 7) == Plus(BoardTally(b, 6), RowTally(b, 6, 8));
  }

  /** Mirroring the board negates its tally: material changes sign and the bishop counts swap. */
  lemma TallyMirror(b: Grid)
    ensures BoardTally(Mirror(b), 8) == Neg(BoardTally(b, 8))
  {
    forall row | 0 <= row < 8
      ensures RowTally(Mirror(b), row, 8) == Neg(RowTally(b, 7 - row, 8))
    {
      RowMirror(b, row, 8);
    }
    ReversedRows(b, Mirror(b));
  }

  /** A board whose rows tally, bottom up, as the negated rows of `b` top down, tallies as the negation of `b`. */
  lemma ReversedRows(b: Grid, m: Grid)
    requires forall row | 0 <= row < 8 :: RowTally(m, row, 8) == Neg(RowTally(b, 7 - row, 8))
    ensures BoardTally(m, 8) == Neg(BoardTally(b, 8))
  {
    BoardTallyRows(b);
    BoardTallyRows(m);
    assert RowTally(m, 0, 8) == Neg(RowTally(b, 7, 8));
    assert RowTally(m, 1, 8) == Neg(RowTally(b, 6, 8));
    assert RowTally(m, 2, 8) == Neg(RowTally(b, 5, 8));
    assert RowTally(m, 3, 8) == Neg(RowTally(b, 4, 8));
    assert RowTally(m, 4, 8) == Neg(RowTally(b, 3, 8));
    assert RowTally(m, 5, 8) == Neg(RowTally(b, 2, 8));
    assert RowTally(m, 6, 8) == Neg(RowTally(b, 1, 8));
    assert RowTally(m, 7, 8) == Neg(RowTally(b, 0, 8));
    ReversedNegSum(RowTally(b, 0, 8), RowTally(b, 1, 8), RowTally(b, 2, 8), RowTally(b, 3, 8),
                   RowTally(b, 4, 8), RowTally(b, 5, 8), RowTally(b, 6, 8), RowTally(b, 7, 8));
  }

  /** Summing eight negated tallies in reverse order negates the sum. */
  lemma ReversedNegSum(t0: Tally, t1: Tally, t2: Tally, t3: Tally, t4: Tally, t5: Tally, t6: Tally, t7: Tally)
    ensures Plus(Plus(Plus(Plus(Plus(Plus(Plus(Neg(t7), Neg(t6)), Neg(t5)), Neg(t4)), Neg(t3)), Neg(t2)), Neg(t1)), Neg(t0))
            == Neg(Plus(Plus(Plus(Plus(Plus(Plus(Plus(t0, t1), t2), t3), t4), t5), t6), t7))
  {
  }

  /**
   * The static score is colour-symmetric: the mirrored board, rows reversed
   * and colours swapped, scores exactly the negation.
   */
  lemma StaticScoreMirror(b: Grid)
    ensures StaticScore(Mirror(b)) == -StaticScore(b)
  {
    TallyMirror(b);
  }

  /** The start position is its own mirror image. */
  lemma InitialSelfMirror()
    ensures Mirror(InitialPosition().board) == InitialPosition().board
  {
    var b := InitialPosition().board;
    forall r, c | InBounds(r, c)
      ensures At(b, r, c) == FlipCell(At(b, 7 - r, c))
    {
      if r == 0 || r == 7 {
        assert BackRank(White)[c] == FlipCell(BackRank(Black)[c]);
      }
    }
    SelfMirror(b);
  }

  /** A board that is its own mirror image is balanced: its static score is 0. */
  lemma SelfMirrorBalanced(b: Grid)
    requires Mirror(b) == b
    ensures StaticScore(b) == 0.0
  {
    StaticScoreMirror(b);
  }

  /** The start position is balanced. */
  lemma InitialBalanced()
    ensures StaticScore(InitialPosition().board) == 0.0
  {
    InitialSelfMirror();
    SelfMirrorBalanced(InitialPosition().board);
  }

  /** The scan of the source: every occupied square in row-by-row order, then the bishop pair and mobility. */
  method EvaluatePosition(p: Position, perspective: Color, terminal: bool) returns (score: real)
    ensures score == Evaluate(p, perspective, terminal)
  {
    if terminal {
      var check := IsInCheck(p, p.turn);
      if check {
        return if p.turn == perspective then -MateScore else MateScore;
      }
      return 0.0;
    }
    var total := 0.0;
    var whiteBishops := 0;
    var blackBishops := 0;
    for row := 0 to 8
      invariant Tally(total, whiteBishops, blackBishops) == BoardTally(p.board, row)
    {
      for col := 0 to 8
        invariant Tally(total, whiteBishops, blackBishops) == Plus(BoardTally(p.board, row), RowTally(p.board, row, col))
      {
        var piece := At(p.board, row, col);
        if piece.None? {
          continue;
        }
        total := total + Signed(piece.value, row, col);
        if piece.value == Piece(White, Bishop) {
          whiteBishops := whiteBishops + 1;
        }
        if piece.value == Piece(Black, Bishop) {
          blackBishops := blackBishops + 1;
        }
      }
    }
    if whiteBishops >= 2 {
      total := total + 30.0;
    }
    if blackBishops >= 2 {
      total := total - 30.0;
    }
    var legal := GenerateLegalMoves(p, p.turn);
    total := total + (if p.turn == White then 1.0 else -1.0) * (|legal| as real) * 2.0;
    score := if perspective == White then total else -total;
  }
}
