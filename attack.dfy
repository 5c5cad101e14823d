// The attack and check oracle of game.js. Attacks are judged by movement
// geometry alone: whether the attacker's own king would be exposed plays no part.

module Attack {
  import opened Board
  import opened Geometry

  /**
   * Whether the piece on (rr, cc), if it has colour `attacker`, attacks (row, col):
   * a pawn one row forward and one column aside, a king on any of the nine
   * squares around and including its own, and any other piece when one of
   * its geometric moves lands there.
   */
  predicate AttacksFrom(p: Position, rr: int, cc: int, row: int, col: int, attacker: Color)
    requires InBounds(rr, cc)
  {
    match At(p.board, rr, cc)
    case None => false
    case Some(piece) =>
      && piece.color == attacker
      && match piece.kind
         case Pawn => rr + PawnDirection(attacker) == row && Abs(cc - col) == 1
         case King => Abs(rr - row) <= 1 && Abs(cc - col) <= 1
         case _ => exists m | m in StepMoves(p, rr, cc, true) :: m.to == Square(row, col)
  }

  /** Whether some piece of colour `attacker` attacks (row, col). */
  predicate Attacked(p: Position, row: int, col: int, attacker: Color)
  {
    exists rr, cc | 0 <= rr < 8 && 0 <= cc < 8 :: AttacksFrom(p, rr, cc, row, col, attacker)
  }

  /** (r, c) comes strictly before (r2, c2) in the row-by-row scan order. */
  predicate Precedes(r: int, c: int, r2: int, c2: int)
  {
    r < r2 || (r == r2 && c < c2)
  }

  /**
   * The first square holding the king of `color` in row-by-row order,
   * scanning from (row, col); None when there is none from there on.
   */
  function FindKing(b: Grid, color: Color, row: int, col: int): (s: Option<Square>)
    requires 0 <= row <= 8 && 0 <= col <= 8
    ensures s.Some? ==> SquareInBounds(s.value) && At(b, s.value.row, s.value.col) == Some(Piece(color, King))
                        && !Precedes(s.value.row, s.value.col, row, col)
    ensures s.Some? ==> forall r, c | InBounds(r, c) && !Precedes(r, c, row, col) && Precedes(r, c, s.value.row, s.value.col) ::
                          At(b, r, c) != Some(Piece(color, King))
    ensures s.None? ==> forall r, c | InBounds(r, c) && !Precedes(r, c, row, col) :: At(b, r, c) != Some(Piece(color, King))
    // `b` ends the measure only so that the scan is not unfolded whenever the square is a literal
    decreases 8 - row, 8 - col, b
  {
    if row == 8 then None
    else if col == 8 then FindKing(b, color, row + 1, 0)
    else if At(b, row, col) == Some(Piece(color, King)) then Some(Square(row, col))
    else FindKing(b, color, row, col + 1)
  }

  /**
   * Whether the king of `color` stands attacked by the other side. Only the
   * first king of that colour in scan order is looked at, and a board without
   * one is never in check.
   */
  predicate InCheck(p: Position, color: Color)
  {
    match FindKing(p.board, color, 0, 0)
    case None => false
    case Some(s) => Attacked(p, s.row, s.col, Opposite(color))
  }

  /** A side with no king on the board is never in check; a side in check has an attacked king. */
  lemma InCheckMeaning(p: Position, color: Color)
    ensures (forall r, c | InBounds(r, c) :: At(p.board, r, c) != Some(Piece(color, King))) ==> !InCheck(p, color)
    ensures InCheck(p, color) ==>
              exists r, c | InBounds(r, c) :: At(p.board, r, c) == Some(Piece(color, King)) && Attacked(p, r, c, Opposite(color))
  {
    var k := FindKing(p.board, color, 0, 0);
    if k.Some? {
      assert InBounds(k.value.row, k.value.col) && At(p.board, k.value.row, k.value.col) == Some(Piece(color, King));
    }
  }

  /** The scan of the source: every square is visited in order and the first attacker found answers true. */
  method IsSquareAttacked(p: Position, row: int, col: int, attacker: Color) returns (attacked: bool)
    ensures attacked == Attacked(p, row, col, attacker)
  {
    for rr := 0 to 8
      invariant forall r, c | 0 <= r < rr && 0 <= c < 8 :: !AttacksFrom(p, r, c, row, col, attacker)
    {
      for cc := 0 to 8
        invariant forall r, c | (0 <= r < rr && 0 <= c < 8) || (r == rr && 0 <= c < cc) :: !AttacksFrom(p, r, c, row, col, attacker)
      {
        var piece := At(p.board, rr, cc);
        if piece.None? || piece.value.color != attacker {
          continue;
        }
        if piece.value.kind == Pawn {
          if rr + PawnDirection(attacker) == row && Abs(cc - col) == 1 {
            assert AttacksFrom(p, rr, cc, row, col, attacker);
            return true;
          }
          continue;
        }
        if piece.value.kind == King {
          if Abs(rr - row) <= 1 && Abs(cc - col) <= 1 {
            assert AttacksFrom(p, rr, cc, row, col, attacker);
            return true;
          }
          continue;
        }
        var pseudo := GenerateStepMoves(p, rr, cc, true);
        if exists m | m in pseudo :: m.to == Square(row, col) {
          assert AttacksFrom(p, rr, cc, row, col, attacker);
          return true;
        }
      }
    }
    return false;
  }

  /** The scan of the source for the first king of `color`, then the attack test on its square. */
  method IsInCheck(p: Position, color: Color) returns (check: bool)
    ensures check == InCheck(p, color)
  {
    for row := 0 to 8
      invariant FindKing(p.board, color, row, 0) == FindKing(p.board, color, 0, 0)
    {
      for col := 0 to 8
        invariant FindKing(p.board, color, row, col) == FindKing(p.board, color, 0, 0)
      {
        if At(p.board, row, col) == Some(Piece(color, King)) {
          check := IsSquareAttacked(p, row, col, Opposite(color));
          return;
        }
      }
    }
    return false;
  }
}
