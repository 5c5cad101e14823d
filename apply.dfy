// The move applier of game.js: a new position from a position and a move.
// It performs no legality check; callers pass generated moves.

module Apply {
  import opened Board

  /** Whether every castling right of `after` was already held in `before`. */
  predicate RightsWithin(after: CastlingRights, before: CastlingRights)
  {
    && (after.whiteKingside ==> before.whiteKingside)
    && (after.whiteQueenside ==> before.whiteQueenside)
    && (after.blackKingside ==> before.blackKingside)
    && (after.blackQueenside ==> before.blackQueenside)
  }

  /**
   * The castling rights after a move that put `placed` on `to` coming from
   * `from`: a king move revokes both rights of its colour, and a move from or
   * to a rook's home corner revokes the right of that corner.
   */
  function RevokeRights(cr: CastlingRights, placed: Cell, from: Square, to: Square): (r: CastlingRights)
    ensures RightsWithin(r, cr)
    ensures placed == Some(Piece(White, King)) ==> !r.whiteKingside && !r.whiteQueenside
    ensures placed == Some(Piece(Black, King)) ==> !r.blackKingside && !r.blackQueenside
    ensures (from == Square(7, 7) || to == Square(7, 7)) ==> !r.whiteKingside
    ensures (from == Square(7, 0) || to == Square(7, 0)) ==> !r.whiteQueenside
    ensures (from == Square(0, 7) || to == Square(0, 7)) ==> !r.blackKingside
    ensures (from == Square(0, 0) || to == Square(0, 0)) ==> !r.blackQueenside
    ensures placed != Some(Piece(White, King)) && from != Square(7, 7) && to != Square(7, 7)
            ==> r.whiteKingside == cr.whiteKingside
    ensures placed != Some(Piece(White, King)) && from != Square(7, 0) && to != Square(7, 0)
            ==> r.whiteQueenside == cr.whiteQueenside
    ensures placed != Some(Piece(Black, King)) && from != Square(0, 7) && to != Square(0, 7)
            ==> r.blackKingside == cr.blackKingside
    ensures placed != Some(Piece(Black, King)) && from != Square(0, 0) && to != Square(0, 0)
            ==> r.blackQueenside == cr.blackQueenside
  {
    var whiteKing := placed == Some(Piece(White, King));
    var blackKing := placed == Some(Piece(Black, King));
    CastlingRights(
      cr.whiteKingside && !whiteKing && from != Square(7, 7) && to != Square(7, 7),
      cr.whiteQueenside && !whiteKing && from != Square(7, 0) && to != Square(7, 0),
      cr.blackKingside && !blackKing && from != Square(0, 7) && to != Square(0, 7),
      cr.blackQueenside && !blackKing && from != Square(0, 0) && to != Square(0, 0))
  }

  predicate IsPawn(c: Cell)
  {
    c.Some? && c.value.kind == Pawn
  }

  /** The piece that `m` captures in `p`, if any: on the destination, or beside the origin for en passant. */
  function Captured(p: Position, m: Move): Cell
    requires MoveInBounds(m)
  {
    if m.isEnPassant then
      (if m.to.col == m.from.col then None else At(p.board, m.from.row, m.to.col))
    else if m.to == m.from then None
    else At(p.board, m.to.row, m.to.col)
  }

  /** The piece that lands on the destination: the mover, or the promoted piece for a pawn with a promotion. */
  function Landing(p: Position, m: Move): Cell
    requires MoveInBounds(m)
  {
    var piece := At(p.board, m.from.row, m.from.col);
    if IsPawn(piece) && m.promotion.Some? then Some(Piece(piece.value.color, m.promotion.value)) else piece
  }

  /**
   * The position after `m`. The board is edited in the order of the source:
   * the origin is emptied, an en-passant victim is removed, a castling rook is
   * relocated, and the (possibly promoted) piece is placed on the destination.
   */
  function ApplyMove(p: Position, m: Move): (q: Position)
    requires MoveInBounds(m)
    ensures q.turn == Opposite(p.turn)
    ensures q.fullmove == p.fullmove + (if p.turn == Black then 1 else 0)
    ensures RightsWithin(q.castling, p.castling)
    ensures q.castling == RevokeRights(p.castling, Landing(p, m), m.from, m.to)
    ensures q.halfmove == if IsPawn(At(p.board, m.from.row, m.from.col)) || Captured(p, m).Some? then 0
                          else p.halfmove + 1
    ensures q.enPassant.Some? <==> IsPawn(At(p.board, m.from.row, m.from.col)) && Abs(m.from.row - m.to.row) == 2
    ensures q.enPassant.Some? ==>
              && Abs(q.enPassant.value.row - m.from.row) == 1 && Abs(q.enPassant.value.row - m.to.row) == 1
              && q.enPassant.value.col == m.from.col
              && q.enPassant.value.pawnColor == At(p.board, m.from.row, m.from.col).value.color
    ensures At(q.board, m.to.row, m.to.col) == Landing(p, m)
  {
    var piece := At(p.board, m.from.row, m.from.col);
    var b1 := Put(p.board, m.from.row, m.from.col, None);
    var captured := if m.isEnPassant then At(b1, m.from.row, m.to.col) else At(b1, m.to.row, m.to.col);
    var b2 := if m.isEnPassant then Put(b1, m.from.row, m.to.col, None) else b1;
    var b3 :=
      if m.castle.Some? && piece.Some? && piece.value.kind == King then
        var row := m.from.row;
        if m.castle.value == Kingside then Put(Put(b2, row, 5, At(b2, row, 7)), row, 7, None)
        else Put(Put(b2, row, 3, At(b2, row, 0)), row, 0, None)
      else b2;
    var pawn := IsPawn(piece);
    var enPassant :=
      if pawn && Abs(m.from.row - m.to.row) == 2 then Some(EnPassant((m.from.row + m.to.row) / 2, m.from.col, piece.value.color))
      else None;
    var placed := if pawn && m.promotion.Some? then Some(Piece(piece.value.color, m.promotion.value)) else piece;
    var halfmove := if pawn || captured.Some? then 0 else p.halfmove + 1;
    var b4 := Put(b3, m.to.row, m.to.col, placed);
    Position(b4, Opposite(p.turn), RevokeRights(p.castling, placed, m.from, m.to), enPassant, halfmove,
             p.fullmove + (if p.turn == Black then 1 else 0))
  }

  /** Whether `m` is a castling move of a king, so that a rook is relocated. */
  predicate CastlesKing(p: Position, m: Move)
    requires MoveInBounds(m)
  {
    m.castle.Some? && At(p.board, m.from.row, m.from.col).Some? && At(p.board, m.from.row, m.from.col).value.kind == King
  }

  /**
   * How `ApplyMove` changes the board: the origin is emptied, the destination
   * receives the landing piece, an en-passant victim beside the origin is
   * removed, a castling rook goes from column 7 to 5 or from 0 to 3, and every
   * other square is unchanged.
   */
  lemma ApplyMoveBoard(p: Position, m: Move)
    requires MoveInBounds(m)
    ensures var q := ApplyMove(p, m);
            forall r, c | InBounds(r, c) && Square(r, c) != m.from && Square(r, c) != m.to
                          && !(m.isEnPassant && r == m.from.row && c == m.to.col)
                          && !(CastlesKing(p, m) && r == m.from.row && c in (if m.castle.value == Kingside then {5, 7} else {0, 3}))
              :: At(q.board, r, c) == At(p.board, r, c)
    ensures var q := ApplyMove(p, m);
            m.from != m.to && !(CastlesKing(p, m) && m.from.col in {3, 5})
            ==> At(q.board, m.from.row, m.from.col) == None
    ensures var q := ApplyMove(p, m);
            m.isEnPassant && !CastlesKing(p, m) && m.to.col != m.from.col && m.to.row != m.from.row
            ==> At(q.board, m.from.row, m.to.col) == None && Captured(p, m) == At(p.board, m.from.row, m.to.col)
    ensures var q := ApplyMove(p, m);
            var row := m.from.row;
            CastlesKing(p, m) && m.castle.value == Kingside && !m.isEnPassant && m.from.col == 4 && m.to.col == 6
            ==> At(q.board, row, 5) == At(p.board, row, 7) && At(q.board, row, 7) == None
    ensures var q := ApplyMove(p, m);
            var row := m.from.row;
            CastlesKing(p, m) && m.castle.value == Queenside && !m.isEnPassant && m.from.col == 4 && m.to.col == 2
            ==> At(q.board, row, 3) == At(p.board, row, 0) && At(q.board, row, 0) == None
  {
  }
}
