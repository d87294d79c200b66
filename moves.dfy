/** The closed family of move kinds and their queries and equality. Executing a move
    is in module Execution. */
module Moves {
  import opened Wrappers
  import opened Pieces

  datatype Move =
    | MajourMove(movedPiece: Piece, destination: int)
    | AttackMove(movedPiece: Piece, destination: int, attackedPiece: Piece)
    | MajourAttackMove(movedPiece: Piece, destination: int, attackedPiece: Piece)
    | PawnMove(movedPiece: Piece, destination: int)
    | PawnAttackMove(movedPiece: Piece, destination: int, attackedPiece: Piece)
    | PawnEnPassantAttackMove(movedPiece: Piece, destination: int, attackedPiece: Piece)
    | PawnJump(movedPiece: Piece, destination: int)
      /** A promotion decorates another move and names the piece the pawn becomes. */
    | PawnPromotion(decoratedMove: Move, promotionPiece: Piece)
    | KingSideCastleMove(movedPiece: Piece, destination: int, castleRook: Piece,
                         castleRookStart: int, castleRookDestination: int)
    | QueenSideCastleMove(movedPiece: Piece, destination: int, castleRook: Piece,
                          castleRookStart: int, castleRookDestination: int)
      /** The sentinel move: no piece, origin -1, destination 65. */
    | NullMove

  /** `getMovePiece`: the piece a move was built with; a promotion was built with the
      piece of the move it wraps; the null move has none. */
  function MovedPieceOf(m: Move): (p: Option<Piece>)
    ensures !m.NullMove? && !m.PawnPromotion? ==> p == Some(m.movedPiece)
    ensures m.PawnPromotion? ==> p == MovedPieceOf(m.decoratedMove)
    ensures p.None? <==> (m.NullMove? || (m.PawnPromotion? && MovedPieceOf(m.decoratedMove).None?))
  {
    match m
    case NullMove => None
    case PawnPromotion(d, _) => MovedPieceOf(d)
    case _ => Some(m.movedPiece)
  }

  /** `getCurrentCoordinate`: the square of the moved piece; -1 for the null move. */
  function CurrentCoordinate(m: Move): (c: int)
    ensures m.NullMove? ==> c == -1
    ensures MovedPieceOf(m).Some? ==> c == MovedPieceOf(m).value.position
  {
    match MovedPieceOf(m)
    case None => -1
    case Some(p) => p.position
  }

  /** `getDestinationCoordinate`: the destination a move was built with; a promotion was
      built with the destination of the move it wraps; 65 for the null move. */
  function Destination(m: Move): (d: int)
    ensures m.NullMove? ==> d == 65
    ensures !m.NullMove? && !m.PawnPromotion? ==> d == m.destination
    ensures m.PawnPromotion? ==> d == Destination(m.decoratedMove)
  {
    match m
    case NullMove => 65
    case PawnPromotion(dm, _) => Destination(dm)
    case _ => m.destination
  }

  /** The moves Java can build: the constructor of a promotion reads the piece of the
      move it wraps, so that move is never the null move (its piece is null). */
  predicate Constructible(m: Move) {
    match m
    case PawnPromotion(d, _) => !d.NullMove? && Constructible(d)
    case _ => true
  }

  /** Of the moves Java can build only the null move has no moved piece; every other
      move reports the piece of the innermost move it wraps. */
  lemma {:induction false} OnlyNullMoveHasNoPiece(m: Move)
    requires Constructible(m)
    ensures MovedPieceOf(m).None? <==> m.NullMove?
    ensures !m.NullMove? ==> !Innermost(m).NullMove? && MovedPieceOf(m) == Some(Innermost(m).movedPiece)
  {
    if m.PawnPromotion? {
      OnlyNullMoveHasNoPiece(m.decoratedMove);
    }
  }

  /** The move at the bottom of a stack of promotions. */
  function Innermost(m: Move): (r: Move)
    ensures !r.PawnPromotion?
  {
    if m.PawnPromotion? then Innermost(m.decoratedMove) else m
  }

  /** Kinds that are instances of `AttackMove`. */
  predicate IsAttackFamily(m: Move) {
    m.AttackMove? || m.MajourAttackMove? || m.PawnAttackMove? || m.PawnEnPassantAttackMove?
  }

  /** `isAttack`: the AttackMove family; a promotion asks the move it wraps. */
  predicate IsAttack(m: Move) {
    if m.PawnPromotion? then IsAttack(m.decoratedMove) else IsAttackFamily(m)
  }

  /** `isCastlingMove`: only the two castles. */
  predicate IsCastlingMove(m: Move) {
    m.KingSideCastleMove? || m.QueenSideCastleMove?
  }

  /** `getAttackedPiece`: the captured piece of an attack, delegated by a promotion. */
  function AttackedPieceOf(m: Move): (p: Option<Piece>)
    ensures p.Some? <==> IsAttack(m)
  {
    if m.PawnPromotion? then AttackedPieceOf(m.decoratedMove)
    else if IsAttackFamily(m) then Some(m.attackedPiece)
    else None
  }

  /** The comparison of `Move.equals`: same origin, same destination, equal moved piece. */
  predicate BaseEquals(a: Move, b: Move) {
    CurrentCoordinate(a) == CurrentCoordinate(b) && Destination(a) == Destination(b) &&
    MovedPieceOf(a) == MovedPieceOf(b)
  }

  /** `AttackMove.equals`: the other move is an attack, base-equal, with an equal captured piece. */
  predicate AttackEquals(a: Move, b: Move) {
    IsAttackFamily(b) && BaseEquals(a, b) && AttackedPieceOf(a) == AttackedPieceOf(b)
  }

  /** `a.equals(b)` with the override of `a`'s class; `instanceof` tests admit subclasses. */
  predicate MoveEquals(a: Move, b: Move) {
    match a
    case NullMove => b.NullMove?
    case MajourMove(_, _) => b.MajourMove? && BaseEquals(a, b)
    case AttackMove(_, _, _) => AttackEquals(a, b)
    case MajourAttackMove(_, _, _) => b.MajourAttackMove? && AttackEquals(a, b)
    case PawnMove(_, _) => (b.PawnMove? || b.PawnPromotion?) && BaseEquals(a, b)
    case PawnPromotion(d, pp) =>
      b.PawnPromotion? && BaseEquals(a, b) && MoveEquals(d, b.decoratedMove) &&
      MovedPieceOf(d) == MovedPieceOf(b.decoratedMove) && pp == b.promotionPiece
    case PawnAttackMove(_, _, _) => (b.PawnAttackMove? || b.PawnEnPassantAttackMove?) && AttackEquals(a, b)
    case PawnEnPassantAttackMove(_, _, _) => b.PawnEnPassantAttackMove? && AttackEquals(a, b)
    case PawnJump(_, _) => BaseEquals(a, b)
    case KingSideCastleMove(_, _, r, _, _) => b.KingSideCastleMove? && BaseEquals(a, b) && r == b.castleRook
    case QueenSideCastleMove(_, _, r, _, _) => b.QueenSideCastleMove? && BaseEquals(a, b) && r == b.castleRook
  }

  /** Every equality, whatever the kind, implies the base comparison: same origin,
      same destination, equal moved piece; attacks also agree on the captured piece. */
  lemma EqualMovesShareEndpoints(a: Move, b: Move)
    requires MoveEquals(a, b)
    ensures CurrentCoordinate(a) == CurrentCoordinate(b) && Destination(a) == Destination(b)
    ensures MovedPieceOf(a) == MovedPieceOf(b)
    ensures IsAttackFamily(a) ==> IsAttackFamily(b) && AttackedPieceOf(a) == AttackedPieceOf(b)
  {
  }

  /** Every move equals itself. */
  lemma {:induction false} MoveEqualsReflexive(m: Move)
    ensures MoveEquals(m, m)
  {
    if m.PawnPromotion? {
      MoveEqualsReflexive(m.decoratedMove);
    }
  }

  /** The final classes and the castles demand the same kind of the other move. */
  lemma EqualityDemandsSameKind(a: Move, b: Move)
    requires MoveEquals(a, b)
    requires !a.AttackMove? && !a.PawnMove? && !a.PawnAttackMove? && !a.PawnJump?
    ensures a.MajourMove? == b.MajourMove? && a.MajourAttackMove? == b.MajourAttackMove?
    ensures a.PawnPromotion? == b.PawnPromotion? && a.PawnEnPassantAttackMove? == b.PawnEnPassantAttackMove?
    ensures a.KingSideCastleMove? == b.KingSideCastleMove? && a.QueenSideCastleMove? == b.QueenSideCastleMove?
    ensures a.NullMove? == b.NullMove?
  {
  }

  /** `PawnJump` keeps the base `equals`, so equality is not symmetric: a jump equals
      the quiet move with the same endpoints, but not the other way round. */
  lemma PawnJumpEqualityIsAsymmetric(p: Piece, d: int)
    ensures MoveEquals(PawnJump(p, d), MajourMove(p, d))
    ensures !MoveEquals(MajourMove(p, d), PawnJump(p, d))
  {
  }

  /** Only the attack family is an attack, a promotion is one exactly when the move it
      wraps is, and only castles are castling moves. */
  lemma {:induction false} AttackAndCastleQueries(m: Move)
    ensures IsAttack(m) ==> IsAttackFamily(m) || (m.PawnPromotion? && IsAttack(m.decoratedMove))
    ensures m.PawnPromotion? ==> IsAttack(m) == IsAttack(m.decoratedMove)
    ensures IsCastlingMove(m) ==> !IsAttack(m) && AttackedPieceOf(m).None?
    ensures IsAttackFamily(m) ==> AttackedPieceOf(m) == Some(m.attackedPiece)
  {
  }
}
