// Legal move generation of game.js: castling, the pseudo-legal moves of a
// piece, the filter that drops every move leaving the mover's own king in
// check, and the classification of a position with no legal move.

module Legality {
  import opened Board
  import opened Apply
  import opened Geometry
  import opened Attack

  /** The castling move of the king of `color` on `flank`: from column 4 of its home row to column 6 or 2. */
  function CastleMove(color: Color, flank: Flank): Move
  {
    var home := HomeRow(color);
    Move(Square(home, 4), Square(home, if flank == Kingside then 6 else 2), None, false, Some(flank))
  }

  /**
   * When the king of `color` may castle on `flank`: its side is not in check,
   * the right is unrevoked, the squares between king and rook are empty, and
   * the two squares next to the king on that side are not attacked. Whether a
   * rook stands in the corner is not looked at.
   */
  predicate CastleAllowed(p: Position, color: Color, flank: Flank)
  {
    var home := HomeRow(color);
    var enemy := Opposite(color);
    && !InCheck(p, color)
    && CanCastle(p, color, flank)
    && if flank == Kingside then
         && At(p.board, home, 5).None? && At(p.board, home, 6).None?
         && !Attacked(p, home, 5, enemy) && !Attacked(p, home, 6, enemy)
       else
         && At(p.board, home, 1).None? && At(p.board, home, 2).None? && At(p.board, home, 3).None?
         && !Attacked(p, home, 2, enemy) && !Attacked(p, home, 3, enemy)
  }

  /** The castling moves of a king of `color` standing on (row, col), kingside first. */
  function CastlingMoves(p: Position, row: int, col: int, color: Color): seq<Move>
  {
    if row == HomeRow(color) && col == 4 then
      (if CastleAllowed(p, color, Kingside) then [CastleMove(color, Kingside)] else [])
      + (if CastleAllowed(p, color, Queenside) then [CastleMove(color, Queenside)] else [])
    else []
  }

  /**
   * The pseudo-legal moves of the piece on (row, col): its moves by movement
   * rules and, for a king when not asked for attacks only, its castling moves.
   */
  function PseudoMoves(p: Position, row: int, col: int, attacksOnly: bool): (ms: seq<Move>)
    requires InBounds(row, col)
    ensures forall m | m in ms :: m.from == Square(row, col) && MoveInBounds(m)
  {
    var piece := At(p.board, row, col);
    StepMoves(p, row, col, attacksOnly)
    + (if !attacksOnly && piece.Some? && piece.value.kind == King then CastlingMoves(p, row, col, piece.value.color) else [])
  }

  /**
   * Castling, both ways: a castling move among the pseudo-moves is a king's
   * castling move whose conditions hold, and a king of `color` on column 4
   * of its home row whose castling conditions hold has that move.
   */
  lemma CastlingRule(p: Position, row: int, col: int, attacksOnly: bool)
    requires InBounds(row, col)
    ensures forall m | m in PseudoMoves(p, row, col, attacksOnly) && m.castle.Some? ::
              && !attacksOnly
              && At(p.board, row, col) == Some(Piece(At(p.board, row, col).value.color, King))
              && m == CastleMove(At(p.board, row, col).value.color, m.castle.value)
              && CastleAllowed(p, At(p.board, row, col).value.color, m.castle.value)
    ensures forall color: Color, flank: Flank |
              && !attacksOnly && At(p.board, row, col) == Some(Piece(color, King))
              && row == HomeRow(color) && col == 4 && CastleAllowed(p, color, flank) ::
              CastleMove(color, flank) in PseudoMoves(p, row, col, attacksOnly)
  {
    var ms := PseudoMoves(p, row, col, attacksOnly);
    forall m | m in ms && m.castle.Some?
      ensures && !attacksOnly
              && At(p.board, row, col) == Some(Piece(At(p.board, row, col).value.color, King))
              && m == CastleMove(At(p.board, row, col).value.color, m.castle.value)
              && CastleAllowed(p, At(p.board, row, col).value.color, m.castle.value)
    {
      if m in StepMoves(p, row, col, attacksOnly) {
        assert false;
      }
    }
  }

  /** The en-passant target, when there is one, is an empty square of the board. */
  predicate EnPassantVacant(p: Position)
  {
    p.enPassant.Some? ==> Vacant(p, Square(p.enPassant.value.row, p.enPassant.value.col))
  }

  /**
   * No pseudo-move lands on a square held by the mover's own side, the
   * en-passant capture and castling included, provided the en-passant target
   * is empty (which every position reached by play keeps, see `PlayKeeps`).
   */
  lemma PseudoMovesLandOpen(p: Position, row: int, col: int, attacksOnly: bool)
    requires InBounds(row, col) && EnPassantVacant(p)
    ensures forall m | m in PseudoMoves(p, row, col, attacksOnly) ::
              At(p.board, row, col).Some? && OpenFor(p.board, m.to.row, m.to.col, At(p.board, row, col).value.color)
  {
    forall m | m in PseudoMoves(p, row, col, attacksOnly)
      ensures At(p.board, row, col).Some? && OpenFor(p.board, m.to.row, m.to.col, At(p.board, row, col).value.color)
    {
      if m in StepMoves(p, row, col, attacksOnly) {
        assert GeometricallySound(p, row, col, m);
      } else {
        CastlingRule(p, row, col, attacksOnly);
      }
    }
  }

  /** Applying a pseudo-move keeps the en-passant target, if any, on an empty square. */
  lemma ApplyKeepsEnPassantVacant(p: Position, row: int, col: int, m: Move)
    requires InBounds(row, col) && m in PseudoMoves(p, row, col, false)
    ensures EnPassantVacant(ApplyMove(p, m))
  {
    var q := ApplyMove(p, m);
    if q.enPassant.Some? {
      var piece := At(p.board, row, col);
      assert IsPawn(piece);
      assert m in StepMoves(p, row, col, false);
      assert GeometricallySound(p, row, col, m);
      var mid := Square(q.enPassant.value.row, q.enPassant.value.col);
      assert mid == Square((row + m.to.row) / 2, col);
      ApplyMoveBoard(p, m);
    }
  }

  /** The moves of the side `color` that are kept: those after which its own king is not in check. */
  function SafeMoves(p: Position, color: Color, ms: seq<Move>): (safe: seq<Move>)
    requires AllInBounds(ms)
    ensures forall m | m in safe :: m in ms
  {
    if ms == [] then []
    else
      var init := ms[..|ms| - 1];
      var last := ms[|ms| - 1];
      var rest := SafeMoves(p, color, init);
      if InCheck(ApplyMove(p, last), color) then rest else rest + [last]
  }

  /** The filter keeps exactly the moves that do not leave the king of `color` in check. */
  lemma {:induction false} SafeMovesMeaning(p: Position, color: Color, ms: seq<Move>)
    requires AllInBounds(ms)
    ensures forall m :: m in SafeMoves(p, color, ms) <==> m in ms && !InCheck(ApplyMove(p, m), color)
  {
    if ms != [] {
      var init := ms[..|ms| - 1];
      assert ms == init + [ms[|ms| - 1]];
      SafeMovesMeaning(p, color, init);
    }
  }

  /** The legal moves of the piece on (row, col) when it belongs to `color`; none otherwise. */
  function MovesFrom(p: Position, color: Color, row: int, col: int): seq<Move>
    requires InBounds(row, col)
  {
    var piece := At(p.board, row, col);
    if piece.None? || piece.value.color != color then [] else SafeMoves(p, color, PseudoMoves(p, row, col, false))
  }

  /**
   * A legal move of `color`: it starts on a square holding a piece of
   * `color`, is one of that piece's pseudo-moves, and does not leave the king
   * of `color` in check.
   */
  predicate IsLegal(p: Position, color: Color, m: Move)
  {
    && SquareInBounds(m.from)
    && At(p.board, m.from.row, m.from.col).Some? && At(p.board, m.from.row, m.from.col).value.color == color
    && m in PseudoMoves(p, m.from.row, m.from.col, false)
    && !InCheck(ApplyMove(p, m), color)
  }

  /** The legal moves of `color` from the squares before (row, col) in row-by-row order, in that order. */
  function LegalBefore(p: Position, color: Color, row: int, col: int): (ms: seq<Move>)
    requires 0 <= row <= 8 && 0 <= col <= 8 && (row == 8 ==> col == 0)
    ensures AllInBounds(ms)
    // `p` ends the measure only so that the scan is not unfolded whenever the square is a literal
    decreases row, col, p
  {
    if col == 0 then
      (if row == 0 then [] else LegalBefore(p, color, row - 1, 8))
    else
      LegalBefore(p, color, row, col - 1) + MovesFrom(p, color, row, col - 1)
  }

  /** The scan up to (row, col) yields exactly the legal moves starting on a square before (row, col). */
  ghost predicate ScanExact(p: Position, color: Color, row: int, col: int)
    requires 0 <= row <= 8 && 0 <= col <= 8 && (row == 8 ==> col == 0)
  {
    forall m :: m in LegalBefore(p, color, row, col) <==> IsLegal(p, color, m) && Precedes(m.from.row, m.from.col, row, col)
  }

  /** The scan is exact at every square, by induction along the row-by-row order. */
  lemma {:induction false} LegalBeforeMeaning(p: Position, color: Color, row: int, col: int)
    requires 0 <= row <= 8 && 0 <= col <= 8 && (row == 8 ==> col == 0)
    ensures ScanExact(p, color, row, col)
    decreases row, col
  {
    if col == 0 {
      if row > 0 {
        LegalBeforeMeaning(p, color, row - 1, 8);
        ScanNextRow(p, color, row);
      }
    } else {
      LegalBeforeMeaning(p, color, row, col - 1);
      ScanNextSquare(p, color, row, col);
    }
  }

  /** Passing to the next row adds nothing: every legal move starts in one of the eight columns. */
  lemma ScanNextRow(p: Position, color: Color, row: int)
    requires 0 < row <= 8 && ScanExact(p, color, row - 1, 8)
    ensures ScanExact(p, color, row, 0)
  {
  }

  /** Passing the square (row, col - 1) adds exactly the legal moves starting there. */
  lemma ScanNextSquare(p: Position, color: Color, row: int, col: int)
    requires 0 <= row < 8 && 0 < col <= 8 && ScanExact(p, color, row, col - 1)
    ensures ScanExact(p, color, row, col)
  {
    MovesFromMeaning(p, color, row, col - 1);
  }

  /** The moves generated for one square are exactly the legal moves starting there. */
  lemma MovesFromMeaning(p: Position, color: Color, row: int, col: int)
    requires InBounds(row, col)
    ensures forall m :: m in MovesFrom(p, color, row, col) <==> IsLegal(p, color, m) && m.from == Square(row, col)
  {
    var piece := At(p.board, row, col);
    if piece.Some? && piece.value.color == color {
      SafeMovesMeaning(p, color, PseudoMoves(p, row, col, false));
    }
  }

  /** The legal moves of `color`, square by square in row-by-row order. */
  function LegalMoves(p: Position, color: Color): (ms: seq<Move>)
    ensures AllInBounds(ms)
  {
    LegalBefore(p, color, 8, 0)
  }

  /** The generated legal moves are exactly the legal moves. */
  lemma LegalMovesMeaning(p: Position, color: Color)
    ensures forall m :: m in LegalMoves(p, color) <==> IsLegal(p, color, m)
  {
    LegalBeforeMeaning(p, color, 8, 0);
  }

  /** The castling scan of the source, with the attack tests evaluated only as far as needed. */
  method GenerateCastlingMoves(p: Position, row: int, col: int, color: Color) returns (moves: seq<Move>)
    ensures moves == CastlingMoves(p, row, col, color)
  {
    moves := [];
    var check := IsInCheck(p, color);
    var home := HomeRow(color);
    if check || row != home || col != 4 {
      return;
    }
    var enemy := Opposite(color);
    if CanCastle(p, color, Kingside) && At(p.board, home, 5).None? && At(p.board, home, 6).None? {
      var attacked5 := IsSquareAttacked(p, home, 5, enemy);
      if !attacked5 {
        var attacked6 := IsSquareAttacked(p, home, 6, enemy);
        if !attacked6 {
          moves := moves + [CastleMove(color, Kingside)];
        }
      }
    }
    if CanCastle(p, color, Queenside) && At(p.board, home, 1).None? && At(p.board, home, 2).None?
       && At(p.board, home, 3).None?
    {
      var attacked2 := IsSquareAttacked(p, home, 2, enemy);
      if !attacked2 {
        var attacked3 := IsSquareAttacked(p, home, 3, enemy);
        if !attacked3 {
          moves := moves + [CastleMove(color, Queenside)];
        }
      }
    }
  }

  method GeneratePseudoMoves(p: Position, row: int, col: int, attacksOnly: bool) returns (moves: seq<Move>)
    requires InBounds(row, col)
    ensures moves == PseudoMoves(p, row, col, attacksOnly)
  {
    moves := GenerateStepMoves(p, row, col, attacksOnly);
    var piece := At(p.board, row, col);
    if !attacksOnly && piece.Some? && piece.value.kind == King {
      var castles := GenerateCastlingMoves(p, row, col, piece.value.color);
      moves := moves + castles;
    }
  }

  /** The filter of the source: each pseudo-move in order, kept when the king of `color` is not in check after it. */
  method FilterSafe(p: Position, color: Color, pseudo: seq<Move>) returns (moves: seq<Move>)
    requires AllInBounds(pseudo)
    ensures moves == SafeMoves(p, color, pseudo)
  {
    moves := [];
    for i := 0 to |pseudo|
      invariant moves == SafeMoves(p, color, pseudo[..i])
    {
      assert pseudo[..i + 1][..i] == pseudo[..i];
      var next := ApplyMove(p, pseudo[i]);
      var check := IsInCheck(next, color);
      if !check {
        moves := moves + [pseudo[i]];
      }
    }
    assert pseudo[..|pseudo|] == pseudo;
  }

  /** The scan of the source: each piece of `color` in row-by-row order, each of its pseudo-moves in order. */
  method GenerateLegalMoves(p: Position, color: Color) returns (moves: seq<Move>)
    ensures moves == LegalMoves(p, color)
  {
    moves := [];
    for row := 0 to 8
      invariant moves == LegalBefore(p, color, row, 0)
    {
      for col := 0 to 8
        invariant moves == LegalBefore(p, color, row, col)
      {
        var piece := At(p.board, row, col);
        if piece.None? || piece.value.color != color {
          continue;
        }
        var pseudo := GeneratePseudoMoves(p, row, col, false);
        var safe := FilterSafe(p, color, pseudo);
        moves := moves + safe;
      }
    }
  }

  /** How a game stands for the side to move. */
  datatype Outcome = InPlay | Checkmate(winner: Color) | Stalemate

  /**
   * The classification made when a position is reached: play goes on while
   * the side to move has a legal move; without one it is checkmate, won by
   * the other side, when that side's king is in check, and stalemate otherwise.
   */
  function Classify(p: Position): (o: Outcome)
    ensures o == InPlay <==> exists m :: IsLegal(p, p.turn, m)
    ensures o.Checkmate? <==> (forall m :: !IsLegal(p, p.turn, m)) && InCheck(p, p.turn)
    ensures o.Checkmate? ==> o.winner == Opposite(p.turn)
    ensures o == Stalemate <==> (forall m :: !IsLegal(p, p.turn, m)) && !InCheck(p, p.turn)
  {
    var legal := LegalMoves(p, p.turn);
    LegalMovesMeaning(p, p.turn);
    if legal != [] then
      assert IsLegal(p, p.turn, legal[0]);
      InPlay
    else if InCheck(p, p.turn) then Checkmate(Opposite(p.turn))
    else Stalemate
  }

  /** Plays `ms` one after another from `p`; None as soon as one is not legal for the side to move. */
  function Play(p: Position, ms: seq<Move>): Option<Position>
    decreases |ms|
  {
    if ms == [] then Some(p)
    else if ms[0] in LegalMoves(p, p.turn) then
      Play(ApplyMove(p, ms[0]), ms[1..])
    else None
  }

  /**
   * Along any sequence of legal moves castling rights are only ever lost,
   * never regained, and an empty en-passant target stays empty.
   */
  lemma {:induction false} PlayKeeps(p: Position, ms: seq<Move>)
    requires Play(p, ms).Some?
    ensures RightsWithin(Play(p, ms).value.castling, p.castling)
    ensures EnPassantVacant(p) ==> EnPassantVacant(Play(p, ms).value)
    decreases |ms|
  {
    if ms != [] {
      var m := ms[0];
      var q := ApplyMove(p, m);
      LegalMovesMeaning(p, p.turn);
      PlayKeeps(q, ms[1..]);
      ApplyKeepsEnPassantVacant(p, m.from.row, m.from.col, m);
    }
  }

  /** The start position satisfies the en-passant invariant, so every position reached from it does. */
  lemma InitialEnPassantVacant(ms: seq<Move>)
    requires Play(InitialPosition(), ms).Some?
    ensures EnPassantVacant(Play(InitialPosition(), ms).value)
  {
    PlayKeeps(InitialPosition(), ms);
  }
}
