/** The piece model: the two sides, the six piece kinds and the immutable piece value. */
module Pieces {
  import opened JavaInts

  datatype Alliance = White | Black {
    /** Row direction of pawn advance: White moves towards row 0, Black towards row 7. */
    function Direction(): int {
      if White? then -1 else 1
    }

    function Opposite(): Alliance {
      if White? then Black else White
    }
  }

  datatype PieceType = Pawn | Knight | Bishop | Rook | Queen | King {
    predicate IsKing() {
      this == King
    }

    predicate IsRook() {
      this == Rook
    }

    /** The one-letter lower-case name of the kind. */
    function Name(): (c: char)
      ensures 'a' <= c <= 'z'
    {
      match this
      case Pawn => 'p'
      case Knight => 'n'
      case Bishop => 'b'
      case Rook => 'r'
      case Queen => 'q'
      case King => 'k'
    }
  }

  /** A piece never changes: a move produces a new piece at the destination. */
  datatype Piece = Piece(kind: PieceType, position: int, alliance: Alliance, isFirstMove: bool)

  /** The three-argument constructor: whatever the caller wanted, the first-move flag is false. */
  function NewPiece(kind: PieceType, position: int, alliance: Alliance): (p: Piece)
    ensures p.kind == kind && p.position == position && p.alliance == alliance
    ensures !p.isFirstMove
  {
    Piece(kind, position, alliance, false)
  }

  /** The four-argument constructor used by Knight and Rook. */
  function NewPieceWithFlag(kind: PieceType, position: int, alliance: Alliance, isFirstMove: bool): Piece {
    Piece(kind, position, alliance, isFirstMove)
  }

  // The public constructors of the concrete piece classes.
  function NewKnight(position: int, alliance: Alliance): Piece { NewPieceWithFlag(Knight, position, alliance, true) }
  function NewRook(position: int, alliance: Alliance): Piece { NewPieceWithFlag(Rook, position, alliance, true) }
  function NewBishop(position: int, alliance: Alliance): Piece { NewPiece(Bishop, position, alliance) }
  function NewQueen(position: int, alliance: Alliance): Piece { NewPiece(Queen, position, alliance) }
  function NewKing(position: int, alliance: Alliance): Piece { NewPiece(King, position, alliance) }
  function NewPawn(position: int, alliance: Alliance): Piece { NewPiece(Pawn, position, alliance) }

  /** Every pawn, king and bishop the constructors can make has its first-move flag cleared. */
  lemma ThreeArgumentKindsNeverFirstMove(position: int, alliance: Alliance)
    ensures !NewPawn(position, alliance).isFirstMove
    ensures !NewKing(position, alliance).isFirstMove
    ensures !NewBishop(position, alliance).isFirstMove
    ensures NewKnight(position, alliance).isFirstMove && NewRook(position, alliance).isFirstMove
  {
  }

  /** `Piece.equals`: the four fields agree. */
  predicate PieceEquals(p: Piece, q: Piece) {
    p.position == q.position && p.kind == q.kind && p.alliance == q.alliance && p.isFirstMove == q.isFirstMove
  }

  lemma PieceEqualsIsValueEquality(p: Piece, q: Piece)
    ensures PieceEquals(p, q) <==> p == q
    ensures PieceEquals(p, p)
    ensures PieceEquals(p, q) ==> PieceEquals(q, p)
  {
  }

  /** Stand-ins for the enum hash codes, which Java leaves to the runtime. */
  function KindHash(k: PieceType): int {
    match k
    case Pawn => 0 case Knight => 1 case Bishop => 2 case Rook => 3 case Queen => 4 case King => 5
  }

  function AllianceHash(a: Alliance): int {
    if a.White? then 0 else 1
  }

  /** `computeHashCode`, with every step wrapped to 32 bits as Java does. */
  function HashCode(p: Piece): Int32 {
    var h0 := Wrap32(KindHash(p.kind));
    var h1 := Wrap32(31 * h0 + AllianceHash(p.alliance));
    var h2 := Wrap32(31 * h1 + p.position);
    Wrap32(31 * h2 + (if p.isFirstMove then 1 else 0))
  }

  lemma EqualPiecesHashEqually(p: Piece, q: Piece)
    requires PieceEquals(p, q)
    ensures HashCode(p) == HashCode(q)
  {
  }

  lemma NamesAreDistinct(a: PieceType, b: PieceType)
    ensures a.Name() == b.Name() <==> a == b
  {
  }

  /** Material value of a kind (the `getPieceValue` of each piece class). */
  function PieceValue(k: PieceType): (v: int)
    ensures v > 0
  {
    match k
    case Pawn => 100
    case Knight => 300
    case Bishop => 330
    case Rook => 500
    case Queen => 900
    case King => 10000
  }

  /** `movePiece` of every piece class: a fresh piece of the same kind at the
      destination, of the alliance of the move's piece, first-move flag false. */
  function MovedPiece(kind: PieceType, destination: int, alliance: Alliance): (p: Piece)
    ensures p.kind == kind && p.position == destination && p.alliance == alliance && !p.isFirstMove
  {
    match kind
    case Knight => NewPieceWithFlag(Knight, destination, alliance, false)
    case Rook => NewPieceWithFlag(Rook, destination, alliance, false)
    case _ => NewPiece(kind, destination, alliance)
  }
}
