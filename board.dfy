// The position model of the chess engine in game.js: pieces, squares, moves,
// castling rights, the en-passant window and the start position.
// Rows are 0..7 with row 0 Black's home rank and row 7 White's home rank;
// columns are 0..7 from the a-file to the h-file.

module Board {

  datatype Option<T> = None | Some(value: T)

  datatype Color = White | Black

  datatype Kind = Pawn | Knight | Bishop | Rook | Queen | King

  datatype Piece = Piece(color: Color, kind: Kind)

  /** A square of the board: empty, or holding one piece. */
  type Cell = Option<Piece>

  predicate IsGrid(b: seq<seq<Cell>>)
  {
    |b| == 8 && forall r :: 0 <= r < 8 ==> |b[r]| == 8
  }

  /** An 8x8 board, indexed board[row][col]. */
  type Grid = b: seq<seq<Cell>> | IsGrid(b) witness seq(8, _ => seq(8, _ => None))

  datatype Square = Square(row: int, col: int)

  datatype Flank = Kingside | Queenside

  /**
   * A move. `promotion` is the kind a pawn becomes on the far rank,
   * `isEnPassant` marks an en-passant capture and `castle` the flank of a
   * castling king move.
   */
  datatype Move = Move(from: Square, to: Square, promotion: Option<Kind>, isEnPassant: bool, castle: Option<Flank>)

  datatype CastlingRights = CastlingRights(whiteKingside: bool, whiteQueenside: bool,
                                           blackKingside: bool, blackQueenside: bool)

  /** The square a pawn skipped over on a two-row advance, and that pawn's colour. */
  datatype EnPassant = EnPassant(row: int, col: int, pawnColor: Color)

  datatype Position = Position(board: Grid, turn: Color, castling: CastlingRights,
                               enPassant: Option<EnPassant>, halfmove: int, fullmove: int)

  predicate InBounds(row: int, col: int)
  {
    0 <= row < 8 && 0 <= col < 8
  }

  predicate SquareInBounds(s: Square)
  {
    InBounds(s.row, s.col)
  }

  predicate MoveInBounds(m: Move)
  {
    SquareInBounds(m.from) && SquareInBounds(m.to)
  }

  predicate AllInBounds(ms: seq<Move>)
  {
    forall m | m in ms :: MoveInBounds(m)
  }

  function Opposite(c: Color): (o: Color)
    ensures o != c
  {
    if c == White then Black else White
  }

  function Abs(x: int): nat
  {
    if x < 0 then -x else x
  }

  function At(b: Grid, row: int, col: int): Cell
    requires InBounds(row, col)
  {
    b[row][col]
  }

  /** The board with one square overwritten. */
  function Put(b: Grid, row: int, col: int, x: Cell): (b': Grid)
    requires InBounds(row, col)
    ensures At(b', row, col) == x
    ensures forall r, c | InBounds(r, c) && (r != row || c != col) :: At(b', r, c) == At(b, r, c)
  {
    b[row := b[row][col := x]]
  }

  function PieceValue(k: Kind): nat
  {
    match k
    case Pawn => 100
    case Knight => 320
    case Bishop => 335
    case Rook => 500
    case Queen => 900
    case King => 20000
  }

  /** The piece values rank the kinds: pawn below knight below bishop below rook below queen below king. */
  lemma PieceValuesRanked()
    ensures 0 < PieceValue(Pawn) < PieceValue(Knight) < PieceValue(Bishop)
              < PieceValue(Rook) < PieceValue(Queen) < PieceValue(King)
    ensures PieceValue(King) > 9 * PieceValue(Queen) + 2 * (PieceValue(Rook) + PieceValue(Bishop) + PieceValue(Knight))
  {
  }

  /** On any board, InBounds holds exactly for the indices the board has. */
  lemma InBoundsIndexes(b: Grid, row: int, col: int)
    ensures InBounds(row, col) <==> 0 <= row < |b| && 0 <= col < |b[row]|
  {
  }

  const KnightDeltas: seq<(int, int)> :=
    [(-2, -1), (-2, 1), (-1, -2), (-1, 2), (1, -2), (1, 2), (2, -1), (2, 1)]

  const KingDeltas: seq<(int, int)> :=
    [(-1, -1), (-1, 0), (-1, 1), (0, -1), (0, 1), (1, -1), (1, 0), (1, 1)]

  /** The knight offsets are the eight distinct L-shaped jumps, each once. */
  lemma KnightDeltasShape()
    ensures |KnightDeltas| == 8
    ensures forall i, j | 0 <= i < j < |KnightDeltas| :: KnightDeltas[i] != KnightDeltas[j]
    ensures forall dr: int, dc: int ::
              (dr, dc) in KnightDeltas <==> (Abs(dr) == 1 && Abs(dc) == 2) || (Abs(dr) == 2 && Abs(dc) == 1)
  {
  }

  /** The king offsets are the eight distinct neighbouring steps, each once. */
  lemma KingDeltasShape()
    ensures |KingDeltas| == 8
    ensures forall i, j | 0 <= i < j < |KingDeltas| :: KingDeltas[i] != KingDeltas[j]
    ensures forall dr: int, dc: int ::
              (dr, dc) in KingDeltas <==> Abs(dr) <= 1 && Abs(dc) <= 1 && (dr, dc) != (0, 0)
  {
  }

  const Diagonals: seq<(int, int)> := [(-1, -1), (-1, 1), (1, -1), (1, 1)]

  const Orthogonals: seq<(int, int)> := [(-1, 0), (1, 0), (0, -1), (0, 1)]

  /** The row a colour's king and rooks start on. */
  function HomeRow(c: Color): int
  {
    if c == White then 7 else 0
  }

  /** Whether the castling right of `color` on `flank` is still unrevoked. */
  function CanCastle(p: Position, color: Color, flank: Flank): (ok: bool)
    ensures ok <==> match (color, flank)
                    case (White, Kingside) => p.castling.whiteKingside
                    case (White, Queenside) => p.castling.whiteQueenside
                    case (Black, Kingside) => p.castling.blackKingside
                    case (Black, Queenside) => p.castling.blackQueenside
  {
    if color == White then
      (if flank == Kingside then p.castling.whiteKingside else p.castling.whiteQueenside)
    else
      (if flank == Kingside then p.castling.blackKingside else p.castling.blackQueenside)
  }

  function BackRank(c: Color): seq<Cell>
  {
    [Some(Piece(c, Rook)), Some(Piece(c, Knight)), Some(Piece(c, Bishop)), Some(Piece(c, Queen)),
     Some(Piece(c, King)), Some(Piece(c, Bishop)), Some(Piece(c, Knight)), Some(Piece(c, Rook))]
  }

  /** The standard start position: White to move, every castling right, no en-passant target. */
  function InitialPosition(): (p: Position)
    ensures p.turn == White && p.enPassant == None && p.halfmove == 0 && p.fullmove == 1
    ensures p.castling == CastlingRights(true, true, true, true)
    ensures At(p.board, 7, 4) == Some(Piece(White, King)) && At(p.board, 0, 4) == Some(Piece(Black, King))
    ensures forall c | 0 <= c < 8 ::
              At(p.board, 6, c) == Some(Piece(White, Pawn)) && At(p.board, 1, c) == Some(Piece(Black, Pawn))
              && At(p.board, 7, c) == BackRank(White)[c] && At(p.board, 0, c) == BackRank(Black)[c]
    ensures forall r, c | 2 <= r < 6 && 0 <= c < 8 :: At(p.board, r, c) == None
  {
    var empty: seq<Cell> := seq(8, _ => None);
    var board: seq<seq<Cell>> :=
      [BackRank(Black), seq(8, _ => Some(Piece(Black, Pawn))), empty, empty, empty, empty,
       seq(8, _ => Some(Piece(White, Pawn))), BackRank(White)];
    Position(board, White, CastlingRights(true, true, true, true), None, 0, 1)
  }
}
